/** How the kernel's data structures stand for the state of module Vm: free lists threaded through
    link fields, one count per page, and two levels of tables kept in physical pages. */
module KernelRepr {
  import opened Mmu
  import opened Vm

  // ---------------------------------------------------------------- linked lists

  function First(s: seq<nat>): Option<nat> {
    if s == [] then None else Some(s[0])
  }

  /** head and the link fields spell out the list s. */
  ghost predicate Lists(head: Option<nat>, link: seq<Option<nat>>, s: seq<nat>) {
    && NoDup(s)
    && head == First(s)
    && (forall i :: 0 <= i < |s| ==> s[i] < |link| && link[s[i]] == First(s[i + 1..]))
  }

  lemma ListHead(head: Option<nat>, link: seq<Option<nat>>, s: seq<nat>)
    requires Lists(head, link, s)
    ensures head == First(s) && (s != [] ==> s[0] < |link|)
  {
  }

  lemma ListPop(head: Option<nat>, link: seq<Option<nat>>, s: seq<nat>, after: Option<nat>)
    requires Lists(head, link, s) && s != []
    ensures head == Some(s[0]) && s[0] < |link|
    ensures Lists(link[s[0]], link, s[1..])
    ensures Lists(link[s[0]], link[s[0] := after], s[1..])
  {
    var t := s[1..];
    forall i | 0 <= i < |t| ensures t[i] < |link| && link[t[i]] == First(t[i + 1..]) && t[i] != s[0] {
      assert t[i] == s[i + 1] && t[i + 1..] == s[i + 2..];
    }
  }

  lemma ListPush(head: Option<nat>, link: seq<Option<nat>>, s: seq<nat>, x: nat)
    requires Lists(head, link, s) && x !in s && x < |link|
    ensures Lists(Some(x), link[x := head], [x] + s)
  {
    var t := [x] + s;
    var link' := link[x := head];
    forall i | 0 <= i < |t| ensures t[i] < |link| && link'[t[i]] == First(t[i + 1..]) {
      if i == 0 {
        assert t[1..] == s;
      } else {
        assert t[i] == s[i - 1] && t[i + 1..] == s[i..];
      }
    }
  }

  // ---------------------------------------------------------------- tables in memory

  /** The word says what the map says about r. */
  predicate Shows(w: Word, links: Links, r: Ref) {
    && (Present(w) <==> r in links)
    && (r in links ==> w.frame == links[r].page && w.flags == links[r].flags)
  }

  ghost predicate InRange(mem: seq<Page>, links: Links) {
    forall r :: r in links ==> links[r].page < |mem|
  }

  ghost predicate DirsShow(mem: seq<Page>, links: Links)
    requires InRange(mem, links)
  {
    forall e: nat, d: nat | Root(e) in links && d < USER_TABLES ::
      Shows(mem[links[Root(e)].page][d], links, Table(e, d))
  }

  ghost predicate TablesShow(mem: seq<Page>, links: Links)
    requires InRange(mem, links)
  {
    forall e: nat, d: nat, t: nat | Table(e, d) in links && t < NPTENTRIES ::
      Shows(mem[links[Table(e, d)].page][t], links, Leaf(e, d, t))
  }

  ghost predicate DataShow(mem: seq<Page>, data: map<nat, Page>) {
    forall p :: p in data ==> p < |mem| && mem[p] == data[p]
  }

  ghost predicate InMemory(mem: seq<Page>, links: Links, data: map<nat, Page>) {
    && InRange(mem, links)
    && DirsShow(mem, links)
    && TablesShow(mem, links)
    && DataShow(mem, data)
  }

  /** A page that is neither a directory nor a table can be overwritten. */
  lemma WriteDataPage(mem: seq<Page>, links: Links, data: map<nat, Page>, p: nat, x: Page)
    requires InMemory(mem, links, data) && p < |mem| && !Structural(links, p)
    ensures InMemory(mem[p := x], links, data[p := x])
    ensures InMemory(mem[p := x], links, data - {p})
  {
    forall r | r in links && IsStructure(r) ensures mem[p := x][links[r].page] == mem[links[r].page] {
    }
  }

  predicate InTables(r: Ref) {
    r.Root? || r.Table? || r.Leaf?
  }

  /** Of the references that table words stand for, only that at one place differs. */
  ghost predicate SameBut(links: Links, links': Links, here: Ref) {
    forall r: Ref :: InTables(r) && r != here ==>
      (r in links <==> r in links') && (r in links ==> links[r] == links'[r])
  }

  lemma SameInMemory(mem: seq<Page>, links: Links, links': Links, data: map<nat, Page>, data': map<nat, Page>)
    requires InMemory(mem, links, data) && SameBut(links, links', InTransit) && InRange(mem, links')
    requires DataShow(mem, data')
    ensures InMemory(mem, links', data')
  {
    forall e: nat, d: nat | Root(e) in links' && d < USER_TABLES
      ensures Shows(mem[links'[Root(e)].page][d], links', Table(e, d)) {
      assert Shows(mem[links[Root(e)].page][d], links, Table(e, d));
    }
    forall e: nat, d: nat, t: nat | Table(e, d) in links' && t < NPTENTRIES
      ensures Shows(mem[links'[Table(e, d)].page][t], links', Leaf(e, d, t)) {
      assert Shows(mem[links[Table(e, d)].page][t], links, Leaf(e, d, t));
    }
  }

  ghost predicate DataApart(links: Links, data: map<nat, Page>) {
    forall r :: r in links && IsStructure(r) ==> links[r].page !in data
  }

  /** A page-table entry is written. */
  lemma WriteTableWord(mem: seq<Page>, links: Links, links': Links, data: map<nat, Page>, e: nat, d: nat, t: nat,
                       w: Word)
    requires InMemory(mem, links, data) && Exclusive(links) && DataApart(links, data)
    requires Table(e, d) in links && t < NPTENTRIES
    requires SameBut(links, links', Leaf(e, d, t)) && InRange(mem, links') && Shows(w, links', Leaf(e, d, t))
    ensures var p := links[Table(e, d)].page; InMemory(mem[p := mem[p][t := w]], links', data)
  {
    var p := links[Table(e, d)].page;
    var mem' := mem[p := mem[p][t := w]];
    forall e': nat, d': nat | Root(e') in links' && d' < USER_TABLES
      ensures Shows(mem'[links'[Root(e')].page][d'], links', Table(e', d')) {
      assert Shows(mem[links[Root(e')].page][d'], links, Table(e', d'));
      assert links[Root(e')].page != p;
    }
    forall e': nat, d': nat, t': nat | Table(e', d') in links' && t' < NPTENTRIES
      ensures Shows(mem'[links'[Table(e', d')].page][t'], links', Leaf(e', d', t')) {
      assert Shows(mem[links[Table(e', d')].page][t'], links, Leaf(e', d', t'));
      assert links[Table(e', d')].page == p ==> Table(e', d') == Table(e, d);
    }
  }

  /** A page table, all of whose entries are absent, is put into or taken out of a directory. */
  lemma WriteDirWord(mem: seq<Page>, links: Links, links': Links, data: map<nat, Page>, data': map<nat, Page>, e: nat,
                     d: nat, w: Word)
    requires InMemory(mem, links, data) && Exclusive(links) && DataApart(links, data')
    requires Root(e) in links && d < USER_TABLES
    requires SameBut(links, links', Table(e, d)) && InRange(mem, links') && Shows(w, links', Table(e, d))
    requires DataShow(mem, data')
    requires forall t: nat :: Leaf(e, d, t) !in links'
    requires Table(e, d) in links' ==> links'[Table(e, d)].page != links[Root(e)].page
    requires Table(e, d) in links' ==> mem[links'[Table(e, d)].page] == ZeroPage()
    ensures var p := links[Root(e)].page; InMemory(mem[p := mem[p][d := w]], links', data')
  {
    var p := links[Root(e)].page;
    var mem' := mem[p := mem[p][d := w]];
    forall e': nat, d': nat | Root(e') in links' && d' < USER_TABLES
      ensures Shows(mem'[links'[Root(e')].page][d'], links', Table(e', d')) {
      assert Shows(mem[links[Root(e')].page][d'], links, Table(e', d'));
      assert links[Root(e')].page == p ==> Root(e') == Root(e);
    }
    forall e': nat, d': nat, t': nat | Table(e', d') in links' && t' < NPTENTRIES
      ensures Shows(mem'[links'[Table(e', d')].page][t'], links', Leaf(e', d', t')) {
      if Table(e', d') != Table(e, d) {
        assert Shows(mem[links[Table(e', d')].page][t'], links, Leaf(e', d', t'));
        assert links[Table(e', d')].page != p;
      }
    }
  }

  /** A page with no user tables becomes the directory of an environment that had none. */
  lemma NewDirectory(mem: seq<Page>, links: Links, data: map<nat, Page>, e: nat, p: nat, x: Page)
    requires InMemory(mem, links, data) && Hierarchical(links) && p < |mem| && !Structural(links, p)
    requires Root(e) !in links && (forall d: nat :: d < USER_TABLES ==> !Present(x[d]))
    ensures InMemory(mem[p := x], links[Root(e) := Link(p, NO_FLAGS)], data - {p})
  {
    var mem' := mem[p := x];
    var links' := links[Root(e) := Link(p, NO_FLAGS)];
    forall e': nat, d': nat | Root(e') in links' && d' < USER_TABLES
      ensures Shows(mem'[links'[Root(e')].page][d'], links', Table(e', d')) {
      if e' != e {
        assert Shows(mem[links[Root(e')].page][d'], links, Table(e', d'));
        assert links[Root(e')].page != p;
      }
    }
    forall e': nat, d': nat, t': nat | Table(e', d') in links' && t' < NPTENTRIES
      ensures Shows(mem'[links'[Table(e', d')].page][t'], links', Leaf(e', d', t')) {
      assert Shows(mem[links[Table(e', d')].page][t'], links, Leaf(e', d', t'));
      assert links[Table(e', d')].page != p;
    }
  }

  // ---------------------------------------------------------------- counts

  ghost predicate RefsExact(ppRef: seq<nat>, links: Links, managed: set<nat>) {
    forall p :: p in managed ==> p < |ppRef| && ppRef[p] == |Holders(links, p)|
  }

  lemma RefsAfterHold(ppRef: seq<nat>, links: Links, managed: set<nat>, r: Ref, l: Link)
    requires RefsExact(ppRef, links, managed) && r !in links && l.page in managed
    ensures RefsExact(ppRef[l.page := ppRef[l.page] + 1], links[r := l], managed)
  {
    forall q ensures |Holders(links[r := l], q)| == |Holders(links, q)| + if q == l.page then 1 else 0 {
      HoldersAdd(links, r, l, q);
      assert r !in Holders(links, q);
    }
  }

  lemma RefsAfterDrop(ppRef: seq<nat>, links: Links, managed: set<nat>, r: Ref)
    requires RefsExact(ppRef, links, managed) && r in links && links[r].page in managed
    ensures var p := links[r].page; ppRef[p] > 0 && RefsExact(ppRef[p := ppRef[p] - 1], links - {r}, managed)
    ensures var p := links[r].page; ppRef[p] - 1 == 0 <==> Holders(links - {r}, p) == {}
  {
    var p := links[r].page;
    assert r in Holders(links, p);
    forall q ensures |Holders(links - {r}, q)| == |Holders(links, q)| - if q == p then 1 else 0 {
      HoldersDrop(links, r, q);
      assert q != p ==> r !in Holders(links, q);
    }
  }

  /** page_insert takes its reference to the new page first and drops the old mapping second; the
      outcome is that of changing the entry in one step. */
  lemma InsertByHold(v: Frames, leaf: Ref, p: nat, flags: Flags)
    requires leaf.Leaf? && InTransit !in v.links
    ensures var w := Drop(Hold(v, InTransit, p), leaf);
      w.(links := (w.links - {InTransit})[leaf := Link(p, flags)]) == SetEntry(v, leaf, Link(p, flags))
  {
    var u := Hold(v, InTransit, p);
    var w := Drop(u, leaf);
    var links := v.links[leaf := Link(p, flags)];
    assert (w.links - {InTransit})[leaf := Link(p, flags)] == links;
    if leaf in v.links {
      var q := v.links[leaf].page;
      assert u.links[leaf].page == q;
      HoldersAdd(v.links, leaf, Link(p, flags), q);
      HoldersAdd(v.links, InTransit, Link(p, NO_FLAGS), q);
      HoldersDrop(u.links, leaf, q);
      if p == q {
        assert leaf in Holders(links, q) && InTransit in Holders(u.links - {leaf}, q);
      } else {
        assert InTransit !in Holders(v.links, q);
        assert Holders(links, q) == Holders(u.links - {leaf}, q);
      }
    }
  }

  lemma StructuresApart(v: Frames, managed: set<nat>)
    requires WellFormed(v, managed)
    ensures DataApart(v.links, v.data) && Exclusive(v.links)
  {
    assert forall r :: r in v.links && IsStructure(r) ==> Structural(v.links, v.links[r].page);
  }

  /** The page table that pgdir_walk adds does not use a page that is in use already. */
  lemma StructuralAfterWalk(v: Frames, managed: set<nat>, e: nat, d: nat, p: nat)
    requires WellFormed(v, managed) && CanWalk(v, e, d) && Root(e) in v.links && d < USER_TABLES
    requires p !in v.free && !Structural(v.links, p)
    ensures p !in Walk(v, e, d).free && !Structural(Walk(v, e, d).links, p)
    ensures Holders(Walk(v, e, d).links, p) == Holders(v.links, p)
  {
    WalkKeeps(v, managed, e, d);
    if Table(e, d) !in v.links {
      FreeTail(v.free);
      StructuralUnchanged(v.links, Walk(v, e, d).links, p);
    }
  }

  // ---------------------------------------------------------------- the whole representation

  ghost predicate PagesRep(ppRef: seq<nat>, ppLink: seq<Option<nat>>, head: Option<nat>, v: Frames, managed: set<nat>,
                           n: nat) {
    && |ppRef| == |ppLink| == n
    && (forall p :: p in managed ==> p < n)
    && RefsExact(ppRef, v.links, managed)
    && Lists(head, ppLink, v.free)
    && (forall p :: p in managed && p !in v.free ==> ppLink[p] == None)
  }

  ghost predicate RootsRep(pgdir: seq<Option<nat>>, links: Links) {
    forall e: nat :: e < |pgdir| ==> pgdir[e] == if Root(e) in links then Some(links[Root(e)].page) else None
  }

  ghost predicate MemRep(mem: seq<Page>, pgdir: seq<Option<nat>>, v: Frames) {
    InMemory(mem, v.links, v.data) && RootsRep(pgdir, v.links)
  }

  lemma DirEntry(mem: seq<Page>, pgdir: seq<Option<nat>>, v: Frames, e: nat, d: nat)
    requires MemRep(mem, pgdir, v) && Root(e) in v.links && e < |pgdir| && d < USER_TABLES
    ensures pgdir[e] == Some(v.links[Root(e)].page) && v.links[Root(e)].page < |mem|
    ensures Shows(mem[v.links[Root(e)].page][d], v.links, Table(e, d))
  {
  }

  lemma TableEntry(mem: seq<Page>, pgdir: seq<Option<nat>>, v: Frames, e: nat, d: nat, t: nat)
    requires MemRep(mem, pgdir, v) && Table(e, d) in v.links && t < NPTENTRIES
    ensures v.links[Table(e, d)].page < |mem|
    ensures Shows(mem[v.links[Table(e, d)].page][t], v.links, Leaf(e, d, t))
  {
  }

  /** pgdir_walk gives the page it just took from the free list to directory entry d. */
  lemma AddTablePages(v: Frames, managed: set<nat>, e: nat, d: nat,
                      ppRef: seq<nat>, ppLink: seq<Option<nat>>, head: Option<nat>, n: nat)
    requires WellFormed(v, managed) && v.free != [] && Root(e) in v.links && d < USER_TABLES && Table(e, d) !in v.links
    requires PagesRep(ppRef, ppLink, head, Alloc(v), managed, n)
    ensures v.free[0] < n == |ppRef| && ppRef[v.free[0]] == 0
    ensures PagesRep(ppRef[v.free[0] := 1], ppLink, head, Walk(v, e, d), managed, n)
  {
    RefsAfterHold(ppRef, v.links, managed, Table(e, d), Link(v.free[0], TABLE_FLAGS));
    assert v.free[0] in v.free && Holders(v.links, v.free[0]) == {};
  }

  lemma AddTableMemory(v: Frames, managed: set<nat>, e: nat, d: nat, mem: seq<Page>, pgdir: seq<Option<nat>>)
    requires WellFormed(v, managed) && v.free != [] && Root(e) in v.links && d < USER_TABLES && Table(e, d) !in v.links
    requires MemRep(mem, pgdir, Alloc(v))
    ensures var dir := v.links[Root(e)].page;
      && dir < |mem|
      && MemRep(mem[dir := mem[dir][d := EntryWord(v.free[0], TABLE_FLAGS)]], pgdir, Walk(v, e, d))
  {
    var p := v.free[0];
    var links := Walk(v, e, d).links;
    assert p in v.free && Holders(v.links, p) == {} && p !in v.data;
    assert Root(e) in Holders(v.links, v.links[Root(e)].page);
    assert Alloc(v).data[p] == ZeroPage();
    StructuresApart(v, managed);
    assert DataShow(mem, v.data) by {
      assert forall q :: q in v.data ==> q in Alloc(v).data && Alloc(v).data[q] == v.data[q];
    }
    WriteDirWord(mem, v.links, links, Alloc(v).data, v.data, e, d, EntryWord(p, TABLE_FLAGS));
  }

  /** page_remove clears the entry after it has dropped the reference. */
  lemma ClearEntry(v: Frames, managed: set<nat>, e: nat, d: nat, t: nat, mem: seq<Page>, pgdir: seq<Option<nat>>)
    requires WellFormed(v, managed) && Leaf(e, d, t) in v.links && MemRep(mem, pgdir, v)
    ensures var p := v.links[Table(e, d)].page;
      && p < |mem| && t < NPTENTRIES
      && MemRep(mem[p := mem[p][t := ZERO_WORD]], pgdir, Drop(v, Leaf(e, d, t)))
  {
    var w := Drop(v, Leaf(e, d, t));
    StructuresApart(v, managed);
    assert Table(e, d) in v.links && t < NPTENTRIES && v.links[Table(e, d)].page < |mem|;
    hide WellFormed;
    Dropped(v, e, d, t, mem, pgdir);
    hide Drop, SameBut, InRange, DataShow, RootsRep, Shows, Exclusive, DataApart;
    SameInMemory(mem, v.links, v.links, v.data, w.data);
    WriteTableWord(mem, v.links, w.links, w.data, e, d, t, ZERO_WORD);
  }

  /** One mapping less, and perhaps one page of data. */
  lemma Dropped(v: Frames, e: nat, d: nat, t: nat, mem: seq<Page>, pgdir: seq<Option<nat>>)
    requires MemRep(mem, pgdir, v) && DataApart(v.links, v.data)
    ensures var w := Drop(v, Leaf(e, d, t));
      && SameBut(v.links, w.links, Leaf(e, d, t)) && SameBut(v.links, v.links, InTransit)
      && InRange(mem, v.links) && InRange(mem, w.links) && Shows(ZERO_WORD, w.links, Leaf(e, d, t))
      && DataShow(mem, w.data) && DataApart(v.links, w.data) && RootsRep(pgdir, w.links)
  {
    hide Holders;
  }

  /** page_insert writes the entry last. */
  lemma WriteEntry(v: Frames, w: Frames, e: nat, d: nat, t: nat, p: nat, perm: Flags, mem: seq<Page>,
                   pgdir: seq<Option<nat>>)
    requires Table(e, d) in v.links && t < NPTENTRIES && InTransit !in v.links && p < |mem|
    requires w == Drop(Hold(v, InTransit, p), Leaf(e, d, t))
    requires MemRep(mem, pgdir, w) && Exclusive(w.links) && DataApart(w.links, w.data)
    ensures var q := v.links[Table(e, d)].page;
      && q < |mem|
      && MemRep(mem[q := mem[q][t := EntryWord(p, perm)]], pgdir, SetEntry(v, Leaf(e, d, t), Link(p, WithP(perm))))
  {
    var leaf := Leaf(e, d, t);
    var u := SetEntry(v, leaf, Link(p, WithP(perm)));
    InsertByHold(v, leaf, p, WithP(perm));
    assert u.links == (w.links - {InTransit})[leaf := Link(p, WithP(perm))] && u.data == w.data;
    assert w.links[Table(e, d)] == v.links[Table(e, d)];
    WriteTableWord(mem, w.links, u.links, w.data, e, d, t, EntryWord(p, perm));
  }

  lemma TakeReference(v: Frames, managed: set<nat>, p: nat,
                      ppRef: seq<nat>, ppLink: seq<Option<nat>>, head: Option<nat>, mem: seq<Page>,
                        pgdir: seq<Option<nat>>)
    requires WellFormed(v, managed) && InTransit !in v.links
    requires p in managed && p !in v.free && !Structural(v.links, p)
    requires PagesRep(ppRef, ppLink, head, v, managed, |mem|) && MemRep(mem, pgdir, v)
    ensures p < |mem| == |ppRef| && ppRef[p] == |Holders(v.links, p)|
    ensures WellFormed(Hold(v, InTransit, p), managed)
    ensures PagesRep(ppRef[p := ppRef[p] + 1], ppLink, head, Hold(v, InTransit, p), managed, |mem|)
    ensures MemRep(mem, pgdir, Hold(v, InTransit, p))
  {
    hide WellFormed, Structural, Lists;
    HoldKeeps(v, managed, InTransit, p);
    RefsAfterHold(ppRef, v.links, managed, InTransit, Link(p, NO_FLAGS));
    assert PagesRep(ppRef[p := ppRef[p] + 1], ppLink, head, Hold(v, InTransit, p), managed, |mem|);
    hide PagesRep, RefsExact;
    SameInMemory(mem, v.links, Hold(v, InTransit, p).links, v.data, v.data);
  }

  /** When the entry is written it takes over the reference that page_insert took. */
  lemma EntryPages(v: Frames, w: Frames, leaf: Ref, l: Link,
                   ppRef: seq<nat>, ppLink: seq<Option<nat>>, head: Option<nat>, managed: set<nat>, n: nat)
    requires leaf.Leaf? && InTransit !in v.links && w == Drop(Hold(v, InTransit, l.page), leaf)
    requires PagesRep(ppRef, ppLink, head, w, managed, n)
    ensures PagesRep(ppRef, ppLink, head, SetEntry(v, leaf, l), managed, n)
  {
    InsertByHold(v, leaf, l.page, l.flags);
    var u := SetEntry(v, leaf, l);
    assert u.links == (w.links - {InTransit})[leaf := l] && u.free == w.free;
    forall q ensures |Holders(u.links, q)| == |Holders(w.links, q)| {
      Renamed(w.links, leaf, l, q);
    }
  }

  lemma Renamed(links: Links, leaf: Ref, l: Link, q: nat)
    requires InTransit in links && leaf !in links && leaf.Leaf? && links[InTransit].page == l.page
    ensures |Holders((links - {InTransit})[leaf := l], q)| == |Holders(links, q)|
  {
    HoldersDrop(links, InTransit, q);
    HoldersAdd(links - {InTransit}, leaf, l, q);
    assert leaf !in Holders(links, q);
    assert InTransit in Holders(links, q) <==> q == l.page;
  }

  /** The last step of page_insert, from the state after the old mapping was dropped. */
  lemma FinishInsert(v: Frames, w: Frames, managed: set<nat>, e: nat, d: nat, t: nat, p: nat, perm: Flags,
                     ppRef: seq<nat>, ppLink: seq<Option<nat>>, head: Option<nat>, mem: seq<Page>,
                       pgdir: seq<Option<nat>>)
    requires WellFormed(v, managed) && WellFormed(w, managed)
    requires Table(e, d) in v.links && t < NPTENTRIES && InTransit !in v.links
    requires p in managed && p !in v.free && !Structural(v.links, p)
    requires w == Drop(Hold(v, InTransit, p), Leaf(e, d, t))
    requires PagesRep(ppRef, ppLink, head, w, managed, |mem|) && MemRep(mem, pgdir, w)
    ensures var q := v.links[Table(e, d)].page;
      var u := SetEntry(v, Leaf(e, d, t), Link(p, WithP(perm)));
      && q < |mem|
      && WellFormed(u, managed)
      && PagesRep(ppRef, ppLink, head, u, managed, |mem|)
      && MemRep(mem[q := mem[q][t := EntryWord(p, perm)]], pgdir, u)
  {
    hide WellFormed, MemRep, SetEntry, Drop, Holders, Exclusive, DataApart, Structural;
    StructuresApart(w, managed);
    WriteEntry(v, w, e, d, t, p, perm, mem, pgdir);
    SetEntryKeeps(v, managed, Leaf(e, d, t), Link(p, WithP(perm)));
    EntryPages(v, w, Leaf(e, d, t), Link(p, WithP(perm)), ppRef, ppLink, head, managed, |mem|);
  }

  /** env_setup_vm makes the page it allocated the directory of env e. */
  lemma InstallDirectory(v: Frames, managed: set<nat>, e: nat, p: nat, x: Page,
                         ppRef: seq<nat>, ppLink: seq<Option<nat>>, head: Option<nat>, mem: seq<Page>,
                           pgdir: seq<Option<nat>>)
    requires WellFormed(v, managed) && p in v.loose && Root(e) !in v.links && e < |pgdir|
    requires forall d: nat :: d < USER_TABLES ==> !Present(x[d])
    requires PagesRep(ppRef, ppLink, head, v, managed, |mem|) && MemRep(mem, pgdir, v)
    ensures p < |mem| == |ppRef| && ppRef[p] == 0
    ensures WellFormed(MakeRoot(v, e, p), managed)
    ensures PagesRep(ppRef[p := 1], ppLink, head, MakeRoot(v, e, p), managed, |mem|)
    ensures MemRep(mem[p := x], pgdir[e := Some(p)], MakeRoot(v, e, p))
  {
    assert p in managed && Holders(v.links, p) == {};
    MakeRootKeeps(v, managed, e, p);
    NotStructural(v.links, p);
    NewDirectory(mem, v.links, v.data, e, p, x);
    RefsAfterHold(ppRef, v.links, managed, Root(e), Link(p, NO_FLAGS));
  }

  /** env_free takes an emptied page table out of the directory. */
  lemma ClearTable(v: Frames, managed: set<nat>, e: nat, d: nat, mem: seq<Page>, pgdir: seq<Option<nat>>)
    requires WellFormed(v, managed) && Table(e, d) in v.links && (forall t: nat :: Leaf(e, d, t) !in v.links)
    requires MemRep(mem, pgdir, v)
    ensures var dir := v.links[Root(e)].page;
      dir < |mem| && d < USER_TABLES && MemRep(mem[dir := mem[dir][d := ZERO_WORD]], pgdir, Drop(v, Table(e, d)))
  {
    var w := Drop(v, Table(e, d));
    StructuresApart(v, managed);
    assert w.links == v.links - {Table(e, d)};
    WriteDirWord(mem, v.links, w.links, v.data, w.data, e, d, ZERO_WORD);
  }

  lemma ClearRoot(v: Frames, managed: set<nat>, e: nat, mem: seq<Page>, pgdir: seq<Option<nat>>)
    requires WellFormed(v, managed) && Root(e) in v.links && (forall d: nat :: Table(e, d) !in v.links)
    requires MemRep(mem, pgdir, v) && e < |pgdir|
    ensures MemRep(mem, pgdir[e := None], Drop(v, Root(e)))
  {
    hide WellFormed, Holders;
    var w := Drop(v, Root(e));
    assert w.links == v.links - {Root(e)};
    forall e': nat, d: nat | Root(e') in w.links && d < USER_TABLES
      ensures Shows(mem[w.links[Root(e')].page][d], w.links, Table(e', d)) {
      assert Shows(mem[v.links[Root(e')].page][d], v.links, Table(e', d));
    }
    forall e': nat, d: nat, t: nat | Table(e', d) in w.links && t < NPTENTRIES
      ensures Shows(mem[w.links[Table(e', d)].page][t], w.links, Leaf(e', d, t)) {
      assert Shows(mem[v.links[Table(e', d)].page][t], v.links, Leaf(e', d, t));
    }
  }

  lemma ShrinkData(mem: seq<Page>, pgdir: seq<Option<nat>>, v: Frames, w: Frames)
    requires MemRep(mem, pgdir, v) && w.links == v.links
    requires forall p :: p in w.data ==> p in v.data && w.data[p] == v.data[p]
    ensures MemRep(mem, pgdir, w)
  {
  }

  /** A page in use by some reference can be given up by it. */
  lemma ReferenceFacts(v: Frames, managed: set<nat>, r: Ref)
    requires WellFormed(v, managed) && r in v.links
    ensures v.links[r].page in managed && v.links[r].page !in v.free && v.links[r].page !in v.loose
  {
    assert r in Holders(v.links, v.links[r].page);
  }

  /** PGADDR, PDX and PTX agree. */
  lemma PgAddr(d: nat, t: nat)
    requires d < USER_TABLES && t < NPTENTRIES
    ensures Pdx(d * 0x400000 + t * 4096) == d && Ptx(d * 0x400000 + t * 4096) == t
    ensures d * 0x400000 + t * 4096 < UTOP
  {
    var va := d * 0x400000 + t * 4096;
    assert va / 0x400000 == d;
    assert va / 4096 == d * 1024 + t;
  }

  /** The page that page_alloc has just handed out. */
  lemma FreshPage(v: Frames, managed: set<nat>)
    requires WellFormed(v, managed) && v.free != []
    ensures v.free[0] in managed && v.free[0] !in Alloc(v).free
    ensures !Structural(Alloc(v).links, v.free[0]) && |Holders(Alloc(v).links, v.free[0])| < 65535
  {
    AllocKeeps(v, managed);
    FreeTail(v.free);
    NotStructural(v.links, v.free[0]);
  }

  lemma ReleaseFresh(v: Frames, managed: set<nat>)
    requires WellFormed(v, managed) && v.free != []
    ensures Release(Alloc(v), v.free[0]) == v
  {
    AllocKeeps(v, managed);
    assert [v.free[0]] + v.free[1..] == v.free;
    assert v.data[v.free[0] := ZeroPage()] - {v.free[0]} == v.data;
  }

  lemma FreshPageRef(v: Frames, managed: set<nat>, ppRef: seq<nat>, ppLink: seq<Option<nat>>, head: Option<nat>, n: nat)
    requires WellFormed(v, managed) && v.free != [] && PagesRep(ppRef, ppLink, head, Alloc(v), managed, n)
    ensures v.free[0] < |ppRef| && ppRef[v.free[0]] == 0
  {
    AllocKeeps(v, managed);
  }

  /** A store by user code, with the bits the MMU sets in the entry. */
  lemma StoreMemory(v: Frames, managed: set<nat>, e: nat, d: nat, t: nat, flags: Flags, x: Page,
                    mem: seq<Page>, pgdir: seq<Option<nat>>)
    requires WellFormed(v, managed) && Leaf(e, d, t) in v.links && MemRep(mem, pgdir, v) && flags.p
    ensures var table := v.links[Table(e, d)].page;
      var p := v.links[Leaf(e, d, t)].page;
      && table < |mem| && p < |mem| && t < NPTENTRIES && table != p
      && MemRep(mem[table := mem[table][t := Word(p, flags)]][p := x], pgdir,
                v.(links := v.links[Leaf(e, d, t) := Link(p, flags)], data := v.data[p := x]))
  {
    var leaf := Leaf(e, d, t);
    var p := v.links[leaf].page;
    var table := v.links[Table(e, d)].page;
    var links := v.links[leaf := Link(p, flags)];
    StructuresApart(v, managed);
    assert !Structural(v.links, p) by {
      assert leaf in Holders(v.links, p);
    }
    StructuralUnchanged(v.links, links, p);
    WriteTableWord(mem, v.links, links, v.data, e, d, t, Word(p, flags));
    WriteDataPage(mem[table := mem[table][t := Word(p, flags)]], links, v.data, p, x);
  }

  /** Page counts and the free list do not see flag changes and stores. */
  lemma StorePages(v: Frames, w: Frames, ppRef: seq<nat>, ppLink: seq<Option<nat>>, head: Option<nat>,
                   managed: set<nat>, n: nat)
    requires PagesRep(ppRef, ppLink, head, v, managed, n) && w.free == v.free
    requires forall q :: Holders(w.links, q) == Holders(v.links, q)
    ensures PagesRep(ppRef, ppLink, head, w, managed, n)
  {
  }

  lemma DataPage(mem: seq<Page>, pgdir: seq<Option<nat>>, v: Frames, p: nat)
    requires MemRep(mem, pgdir, v) && p in v.data
    ensures p < |mem| && mem[p] == v.data[p]
  {
  }

  /** A 16-bit count is exact after one more reference if and only if it had room for it. */
  lemma CountFits(links: Links, r: Ref, l: Link)
    requires r !in links && |Holders(links, l.page)| < 65536
    ensures (|Holders(links, l.page)| + 1) % 65536 == |Holders(links[r := l], l.page)| <==>
            |Holders(links, l.page)| < 65535
  {
    HoldersAdd(links, r, l, l.page);
    assert r !in Holders(links, l.page);
  }

  /** The count in 16 bits of a page with n references, and after page_decref. */
  function Count16(n: nat): nat {
    n % 65536
  }

  function Less16(count: nat): nat {
    (count + 65535) % 65536
  }

  /** What a wrapped count does: page_decref finds 0 and frees a page that still has references, if and only if their
      number is a multiple of 65536. */
  lemma FreedEarly(links: Links, r: Ref)
    requires r in links
    ensures var p := links[r].page;
      var n, n' := |Holders(links, p)|, |Holders(links - {r}, p)|;
      && n == n' + 1
      && (Less16(Count16(n)) == 0 && n' > 0 <==> n' > 0 && n' % 65536 == 0)
  {
    var p := links[r].page;
    HoldersDrop(links, r, p);
    assert r in Holders(links, p);
    Less16Is(|Holders(links, p)| - 1);
  }

  lemma Less16Is(n: nat)
    ensures Less16(Count16(n + 1)) == n % 65536
  {
  }

  // ---------------------------------------------------------------- a page with many references

  /** One environment with an empty page directory, a page to map, and tables more pages. */
  function NewSpace(tables: nat): Frames {
    Frames(map[Root(0) := Link(1, NO_FLAGS)], seq(tables, i => i + 2), {0}, map[0 := ZeroPage()])
  }

  function Pages(tables: nat): set<nat> {
    set i: nat | i < tables + 2 && IsPage(tables, i)
  }

  predicate IsPage(tables: nat, i: nat) {
    i < tables + 2
  }

  /** After n calls of page_insert for page 0, at addresses 0, 4096, 8192 and so on. */
  function Crowd(tables: nat, n: nat, perm: Flags): Frames {
    if n == 0 then NewSpace(tables)
    else Insert(Crowd(tables, n - 1, perm), 0, (n - 1) / 1024, (n - 1) % 1024, 0, perm)
  }

  /** The tables and mappings there are by then. */
  ghost predicate Crowded(v: Frames, tables: nat, n: nat) {
    && WellFormed(v, Pages(tables)) && Root(0) in v.links && 0 in v.data
    && |Holders(v.links, 0)| == n && |v.free| + (n + 1023) / 1024 == tables
    && (forall d: nat, t: nat :: Leaf(0, d, t) in v.links ==> 1024 * d + t < n)
    && (forall d: nat :: Table(0, d) in v.links <==> 1024 * d < n)
  }

  lemma SpaceOk(tables: nat)
    ensures Crowded(NewSpace(tables), tables, 0)
  {
    var v := NewSpace(tables);
    assert Holders(v.links, 0) == {} && Holders(v.links, 1) == {Root(0)};
    assert forall q :: q != 1 ==> Holders(v.links, q) == {};
    forall q ensures q in v.free <==> 2 <= q < tables + 2 {
      if 2 <= q < tables + 2 {
        assert v.free[q - 2] == q;
      }
    }
    assert FreeExact(v, Pages(tables));
    assert Structural(v.links, 1) by {
      assert Root(0) in v.links;
    }
    assert DataExact(v, Pages(tables));
  }

  /** What page_insert does to one more mapping of a page. */
  lemma OneMore(v: Frames, managed: set<nat>, d: nat, t: nat, perm: Flags)
    requires WellFormed(v, managed) && Root(0) in v.links && 0 in v.data && CanWalk(v, 0, d)
    requires Leaf(0, d, t) !in v.links && d < USER_TABLES && t < NPTENTRIES
    ensures var w := Insert(v, 0, d, t, 0, perm);
      && WellFormed(w, managed) && Root(0) in w.links && 0 in w.data
      && Holders(w.links, 0) == Holders(v.links, 0) + {Leaf(0, d, t)}
      && w.free == (if Table(0, d) in v.links then v.free else v.free[1..])
      && w.links.Keys == v.links.Keys + {Table(0, d), Leaf(0, d, t)}
  {
    assert 0 in managed && 0 !in v.free && !Structural(v.links, 0);
    hide WellFormed, Insert, Holders;
    InsertKeeps(v, managed, 0, d, t, 0, perm);
    NewEntry(v, d, t, perm);
  }

  lemma NewEntry(v: Frames, d: nat, t: nat, perm: Flags)
    requires CanWalk(v, 0, d) && Leaf(0, d, t) !in v.links && 0 !in v.free
    ensures var w := Insert(v, 0, d, t, 0, perm);
      && w.data == v.data && w.free == (if Table(0, d) in v.links then v.free else v.free[1..])
      && w.links.Keys == v.links.Keys + {Table(0, d), Leaf(0, d, t)}
      && Holders(w.links, 0) == Holders(v.links, 0) + {Leaf(0, d, t)}
  {
    var r, l := Leaf(0, d, t), Link(0, WithP(perm));
    var u := Walk(v, 0, d);
    assert Insert(v, 0, d, t, 0, perm).links == u.links[r := l];
    HoldersAdd(u.links, r, l, 0);
    if Table(0, d) !in v.links {
      assert v.free[0] != 0;
      HoldersAdd(v.links, Table(0, d), Link(v.free[0], TABLE_FLAGS), 0);
      assert Table(0, d) !in Holders(v.links, 0);
    }
  }

  lemma Larger(n: nat, tables: nat)
    requires 0 < n <= 1024 * tables
    ensures var d, t := (n - 1) / 1024, (n - 1) % 1024;
      && 1024 * d + t == n - 1 && d < tables
      && (t == 0 ==> (n + 1023) / 1024 == (n - 1 + 1023) / 1024 + 1 && (n - 1 + 1023) / 1024 < tables)
      && (t != 0 ==> (n + 1023) / 1024 == (n - 1 + 1023) / 1024 && 1024 * d < n - 1)
  {
  }

  /** One address space can refer to a page as often as it has room for, in a state that satisfies the invariant. */
  lemma {:induction false} CrowdSize(tables: nat, n: nat, perm: Flags)
    requires tables <= USER_TABLES && n <= 1024 * tables
    ensures Crowded(Crowd(tables, n, perm), tables, n)
  {
    hide Crowded, Insert, NewSpace;
    if n == 0 {
      SpaceOk(tables);
    } else {
      CrowdSize(tables, n - 1, perm);
      CrowdNext(Crowd(tables, n - 1, perm), tables, n, perm);
    }
  }

  lemma CrowdNext(v: Frames, tables: nat, n: nat, perm: Flags)
    requires 0 < n <= 1024 * tables && tables <= USER_TABLES && Crowded(v, tables, n - 1)
    ensures Crowded(Insert(v, 0, (n - 1) / 1024, (n - 1) % 1024, 0, perm), tables, n)
  {
    hide WellFormed, Insert, Holders;
    var d: nat, t: nat := (n - 1) / 1024, (n - 1) % 1024;
    Larger(n, tables);
    var r := Leaf(0, d, t);
    assert r !in v.links;
    assert CanWalk(v, 0, d);
    OneMore(v, Pages(tables), d, t, perm);
    NotYet(v.links, r);
  }

  lemma NotYet(links: Links, r: Ref)
    requires r !in links
    ensures r !in Holders(links, 0) && |Holders(links, 0) + {r}| == |Holders(links, 0)| + 1
  {
  }

  /** From such a state with n + 1 mappings one is removed, and n are left: the page is freed in use when n is a
      multiple of 65536. */
  lemma FreedInUse(tables: nat, n: nat, perm: Flags, r: Ref)
    requires tables <= USER_TABLES && 0 < n < 1024 * tables && r in Holders(Crowd(tables, n + 1, perm).links, 0)
    ensures var v := Crowd(tables, n + 1, perm);
      && WellFormed(v, Pages(tables)) && |Holders(v.links - {r}, 0)| == n
      && (Less16(Count16(|Holders(v.links, 0)|)) == 0 <==> n % 65536 == 0)
  {
    hide WellFormed, Crowd;
    CrowdSize(tables, n + 1, perm);
    FreedEarly(Crowd(tables, n + 1, perm).links, r);
  }
}
