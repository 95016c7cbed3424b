/** kern/kdebug.c's stab_binsearch: a binary search over entries of one type among others, which goes on after an exact
    match with the next address. */
module StabSearch {
  datatype Stab = Stab(typ: int, value: nat)

  /** Entry i has the wanted type. */
  predicate Typed(stabs: seq<Stab>, typ: int, i: int) {
    0 <= i < |stabs| && stabs[i].typ == typ
  }

  predicate Sorted(stabs: seq<Stab>, typ: int, lo: int, hi: int) {
    forall i, j :: lo <= i < j <= hi && Typed(stabs, typ, i) && Typed(stabs, typ, j) ==>
             stabs[i].value <= stabs[j].value
  }

  predicate Has(stabs: seq<Stab>, typ: int, lo: int, hi: int, v: nat) {
    exists i :: lo <= i <= hi && Typed(stabs, typ, i) && stabs[i].value == v
  }

  predicate None(stabs: seq<Stab>, typ: int, lo: int, hi: int) {
    forall i :: lo <= i <= hi ==> !Typed(stabs, typ, i)
  }

  /** Entries of the type from lo to hi at addr or above: an exact match takes one away. */
  function CountFrom(stabs: seq<Stab>, typ: int, addr: nat, lo: int, hi: int): nat
    decreases hi - lo
  {
    if lo > hi then 0
    else CountFrom(stabs, typ, addr, lo + 1, hi) + if Typed(stabs, typ, lo) && stabs[lo].value >= addr then 1 else 0
  }

  lemma {:induction false} CountFalls(stabs: seq<Stab>, typ: int, addr: nat, lo: int, hi: int, m: int)
    requires lo <= m <= hi && Typed(stabs, typ, m) && stabs[m].value == addr
    ensures CountFrom(stabs, typ, addr + 1, m, hi) < CountFrom(stabs, typ, addr, lo, hi)
    decreases hi - lo
  {
    if lo < m {
      CountFalls(stabs, typ, addr, lo + 1, hi, m);
    } else {
      CountShrinks(stabs, typ, addr, lo + 1, hi);
    }
  }

  lemma {:induction false} CountShrinks(stabs: seq<Stab>, typ: int, addr: nat, lo: int, hi: int)
    ensures CountFrom(stabs, typ, addr + 1, lo, hi) <= CountFrom(stabs, typ, addr, lo, hi)
    decreases hi - lo
  {
    if lo <= hi {
      CountShrinks(stabs, typ, addr, lo + 1, hi);
    }
  }

  // ---------------------------------------------------------------- the search as a function

  /** The last entry of the type from l to mid, or l - 1. */
  function Down(stabs: seq<Stab>, typ: int, l: int, mid: int): (m: int)
    requires 0 <= l && mid < |stabs|
    ensures l <= mid ==> l - 1 <= m <= mid
    ensures l > mid ==> m == mid
    ensures m >= l ==> Typed(stabs, typ, m)
    decreases mid - l
  {
    if l <= mid && stabs[mid].typ != typ then Down(stabs, typ, l, mid - 1) else mid
  }

  function Mid(l: int, r: int): (m: int)
    requires 0 <= l <= r
    ensures l <= m <= r
  {
    (l + r) / 2
  }

  datatype Search = Search(l: int, r: int, addr: nat, left: int, any: bool)

  function Turn(stabs: seq<Stab>, typ: int, s: Search): Search
    requires 0 <= s.l <= s.r < |stabs|
  {
    var mid := Mid(s.l, s.r);
    var m := Down(stabs, typ, s.l, mid);
    if m < s.l then s.(l := mid + 1)
    else if stabs[m].value < s.addr then s.(left := m, l := mid + 1, any := true)
    else if stabs[m].value > s.addr then s.(r := m - 1, any := true)
    else Search(m, s.r, s.addr + 1, m, true)
  }

  /** The search loop. */
  function Loop(stabs: seq<Stab>, typ: int, s: Search): Search
    requires 0 <= s.l && s.r < |stabs|
    decreases s.r - s.l, CountFrom(stabs, typ, s.addr, s.l, s.r)
  {
    if s.l > s.r then s else
    var s' := Turn(stabs, typ, s);
    assert s'.addr > s.addr ==>
             CountFrom(stabs, typ, s'.addr, s'.l, s'.r) < CountFrom(stabs, typ, s.addr, s.l, s.r) by {
      if s'.addr > s.addr {
        CountFalls(stabs, typ, s.addr, s.l, s.r, s'.l);
      }
    }
    Loop(stabs, typ, s')
  }

  /** What stab_binsearch computes. */
  function Found(stabs: seq<Stab>, typ: int, lo: int, hi: int, address: nat): (int, int)
    requires 0 <= lo && hi < |stabs|
  {
    var s := Loop(stabs, typ, Search(lo, hi, address, lo, false));
    if s.any && 0 <= s.left + 1 && s.r < |stabs| then (Down(stabs, typ, s.left + 1, s.r), s.r) else (s.left, s.left - 1)
  }

  /** With entries at the address and at the next one, the search can go one too far. */
  lemma OneTooFar()
    ensures Found([Stab(0, 5), Stab(0, 6)], 0, 0, 1, 5) == (1, 1)
  {
    var stabs := [Stab(0, 5), Stab(0, 6)];
    var s0 := Search(0, 1, 5, 0, false);
    var s1 := Search(0, 1, 6, 0, true);
    assert Turn(stabs, 0, s0) == s1;
    var s2 := Search(1, 1, 6, 0, true);
    assert Turn(stabs, 0, s1) == s2;
    var s3 := Search(1, 1, 7, 1, true);
    assert Turn(stabs, 0, s2) == s3;
    var s4 := Search(2, 1, 7, 1, true);
    assert Turn(stabs, 0, s3) == s4;
    assert Loop(stabs, 0, s3) == s4;
    assert Loop(stabs, 0, s1) == s4;
  }

  predicate Below(stabs: seq<Stab>, typ: int, lo: int, l: int, addr: nat) {
    forall i :: lo <= i < l && Typed(stabs, typ, i) ==> stabs[i].value < addr
  }

  predicate Above(stabs: seq<Stab>, typ: int, r: int, hi: int, addr: nat) {
    forall i :: r < i <= hi && Typed(stabs, typ, i) ==> stabs[i].value > addr
  }

  /** The region from lo to hi has an entry of the type at or below addr. */
  predicate Reaches(stabs: seq<Stab>, typ: int, lo: int, hi: int, addr: nat) {
    exists i :: lo <= i <= hi && Typed(stabs, typ, i) && stabs[i].value <= addr
  }

  /** left is the last entry of the type up to right, the next one is just after right, and all those after right are
      above addr. */
  predicate Framed(stabs: seq<Stab>, typ: int, lo: int, hi: int, addr: nat, left: int, right: int) {
    && lo <= left <= right <= hi && Typed(stabs, typ, left) && None(stabs, typ, left + 1, right)
    && (right < hi ==> Typed(stabs, typ, right + 1)) && Above(stabs, typ, right, hi, addr)
  }

  /** The downward scan for an entry of the type. */
  method ScanDown(stabs: seq<Stab>, typ: int, l: int, mid: int) returns (m: int)
    requires 0 <= l && mid < |stabs|
    ensures m <= mid && None(stabs, typ, m + 1, mid) && (l <= mid ==> l - 1 <= m) && (l > mid ==> m == mid)
    ensures m >= l ==> Typed(stabs, typ, m)
    ensures m == Down(stabs, typ, l, mid)
  {
    m := mid;
    while m >= l && stabs[m].typ != typ
      invariant m <= mid && (l <= mid ==> l - 1 <= m) && (l > mid ==> m == mid)
      invariant Down(stabs, typ, l, m) == Down(stabs, typ, l, mid)
      invariant None(stabs, typ, m + 1, mid)
    {
      m := m - 1;
    }
  }

  /** An entry below addr takes all those up to mid with it. */
  lemma GoRight(stabs: seq<Stab>, typ: int, lo: int, hi: int, l: int, m: int, mid: int, addr: nat)
    requires Sorted(stabs, typ, lo, hi) && lo <= l && m <= mid <= hi && None(stabs, typ, m + 1, mid)
    requires Below(stabs, typ, lo, l, addr)
    requires m >= l ==> Typed(stabs, typ, m) && stabs[m].value < addr
    requires l - 1 <= m
    ensures Below(stabs, typ, lo, mid + 1, addr)
  {
  }

  /** An entry above addr takes all those after it with it. */
  lemma GoLeft(stabs: seq<Stab>, typ: int, lo: int, hi: int, m: int, addr: nat)
    requires Sorted(stabs, typ, lo, hi) && lo <= m <= hi && Typed(stabs, typ, m) && stabs[m].value > addr
    ensures Above(stabs, typ, m - 1, hi, addr)
  {
  }

  lemma GoOn(stabs: seq<Stab>, typ: int, lo: int, hi: int, m: int)
    requires Sorted(stabs, typ, lo, hi) && lo <= m <= hi && Typed(stabs, typ, m)
    ensures Below(stabs, typ, lo, m, stabs[m].value + 1) && Has(stabs, typ, lo, hi, stabs[m].value)
    ensures Reaches(stabs, typ, lo, hi, stabs[m].value)
  {
  }

  lemma NoneJoin(stabs: seq<Stab>, typ: int, a: int, b: int, c: int)
    requires None(stabs, typ, a, b) && None(stabs, typ, b + 1, c)
    ensures None(stabs, typ, a, c)
  {
  }

  /** What the search loop leaves behind: up to right everything is below addr, and addr has moved on only past
      entries that exist. */
  predicate Bumped(stabs: seq<Stab>, typ: int, lo: int, hi: int, address: nat, addr: nat) {
    && address <= addr
    && (addr > address ==> Has(stabs, typ, lo, hi, address))
    && (addr > address + 1 ==> Has(stabs, typ, lo, hi, address + 1))
  }

  lemma BumpMore(stabs: seq<Stab>, typ: int, lo: int, hi: int, address: nat, addr: nat)
    requires Bumped(stabs, typ, lo, hi, address, addr) && Has(stabs, typ, lo, hi, addr)
    ensures Bumped(stabs, typ, lo, hi, address, addr + 1)
  {
    hide Has;
  }

  lemma Nothing(stabs: seq<Stab>, typ: int, lo: int, hi: int, address: nat)
    ensures Below(stabs, typ, lo, lo, address) && Above(stabs, typ, hi, hi, address)
    ensures Bumped(stabs, typ, lo, hi, address, address) && None(stabs, typ, lo, lo - 1)
  {
  }

  lemma AboveLess(stabs: seq<Stab>, typ: int, r: int, hi: int, addr: nat, address: nat)
    requires Above(stabs, typ, r, hi, addr) && address <= addr
    ensures Above(stabs, typ, r, hi, address)
  {
  }

  lemma NotNone(stabs: seq<Stab>, typ: int, lo: int, hi: int, m: int)
    requires lo <= m <= hi && Typed(stabs, typ, m)
    ensures !None(stabs, typ, lo, hi)
  {
  }

  lemma NoneReaches(stabs: seq<Stab>, typ: int, lo: int, hi: int, l: int, address: nat)
    requires None(stabs, typ, lo, l - 1) && hi < l
    ensures !Reaches(stabs, typ, lo, hi, address)
  {
  }

  lemma Conclude(stabs: seq<Stab>, typ: int, lo: int, hi: int, address: nat, addr: nat, l: int, before: int, left: int,
                 right: int)
    requires 0 <= lo && right <= hi < |stabs| && right < l
    requires Below(stabs, typ, lo, l, addr) && Above(stabs, typ, right, hi, address)
    requires Bumped(stabs, typ, lo, hi, address, addr)
    requires before == lo || (lo <= before <= right && Typed(stabs, typ, before))
    requires right < hi ==> Typed(stabs, typ, right + 1)
    requires left <= right && None(stabs, typ, left + 1, right)
    requires left >= before + 1 ==> Typed(stabs, typ, left)
    requires before + 1 <= right ==> before <= left
    requires before + 1 > right ==> left == right
    ensures Reaches(stabs, typ, lo, hi, address) ==> Framed(stabs, typ, lo, hi, address, left, right)
    ensures Reaches(stabs, typ, lo, hi, address)
            && !(Has(stabs, typ, lo, hi, address) && Has(stabs, typ, lo, hi, address + 1)) ==>
            stabs[left].value <= address
  {
    if Reaches(stabs, typ, lo, hi, address) {
      var i :| lo <= i <= hi && Typed(stabs, typ, i) && stabs[i].value <= address;
      assert i <= right;
      assert Typed(stabs, typ, left) && lo <= left;
      assert stabs[left].value < addr;
    }
  }

  /** The invariant of the search loop. */
  ghost predicate Ok(stabs: seq<Stab>, typ: int, lo: int, hi: int, address: nat, s: Search) {
    && lo <= s.l && s.r <= hi && Bumped(stabs, typ, lo, hi, address, s.addr)
    && (s.any ==> s.l - 1 <= s.r && !None(stabs, typ, lo, hi))
    && (!s.any ==> None(stabs, typ, lo, s.l - 1) && s.r == hi && s.left == lo)
    && (s.left == lo || (lo <= s.left <= s.r && s.left <= s.l && Typed(stabs, typ, s.left)
       && stabs[s.left].value < s.addr))
    && (s.r < hi ==> Typed(stabs, typ, s.r + 1))
    && Below(stabs, typ, lo, s.l, s.addr) && Above(stabs, typ, s.r, hi, address)
  }

  lemma DownNone(stabs: seq<Stab>, typ: int, l: int, mid: int)
    requires 0 <= l && mid < |stabs|
    ensures None(stabs, typ, Down(stabs, typ, l, mid) + 1, mid)
    decreases mid - l
  {
    if l <= mid && stabs[mid].typ != typ {
      DownNone(stabs, typ, l, mid - 1);
    }
  }

  lemma MissKeeps(stabs: seq<Stab>, typ: int, lo: int, hi: int, address: nat, s: Search, mid: int)
    requires 0 <= lo && hi < |stabs| && Sorted(stabs, typ, lo, hi) && Ok(stabs, typ, lo, hi, address, s)
    requires s.l <= mid <= s.r && None(stabs, typ, s.l, mid)
    ensures Ok(stabs, typ, lo, hi, address, s.(l := mid + 1))
  {
    hide Below, Above, Has, Sorted, Bumped, None;
    GoRight(stabs, typ, lo, hi, s.l, s.l - 1, mid, s.addr);
    if !s.any {
      NoneJoin(stabs, typ, lo, s.l - 1, mid);
    }
  }

  lemma LessKeeps(stabs: seq<Stab>, typ: int, lo: int, hi: int, address: nat, s: Search, m: int, mid: int)
    requires 0 <= lo && hi < |stabs| && Sorted(stabs, typ, lo, hi) && Ok(stabs, typ, lo, hi, address, s)
    requires s.l <= m <= mid <= s.r && None(stabs, typ, m + 1, mid) && Typed(stabs, typ, m) && stabs[m].value < s.addr
    ensures Ok(stabs, typ, lo, hi, address, s.(left := m, l := mid + 1, any := true))
  {
    hide Below, Above, Has, Sorted, Bumped, None;
    NotNone(stabs, typ, lo, hi, m);
    GoRight(stabs, typ, lo, hi, s.l, m, mid, s.addr);
  }

  lemma MoreKeeps(stabs: seq<Stab>, typ: int, lo: int, hi: int, address: nat, s: Search, m: int)
    requires 0 <= lo && hi < |stabs| && Sorted(stabs, typ, lo, hi) && Ok(stabs, typ, lo, hi, address, s)
    requires s.l <= m <= s.r && Typed(stabs, typ, m) && stabs[m].value > s.addr
    ensures Ok(stabs, typ, lo, hi, address, s.(r := m - 1, any := true))
  {
    assert address <= s.addr;
    hide Below, Above, Has, Sorted, Bumped, None;
    NotNone(stabs, typ, lo, hi, m);
    GoLeft(stabs, typ, lo, hi, m, s.addr);
    AboveLess(stabs, typ, m - 1, hi, s.addr, address);
  }

  lemma ExactKeeps(stabs: seq<Stab>, typ: int, lo: int, hi: int, address: nat, s: Search, m: int)
    requires 0 <= lo && hi < |stabs| && Sorted(stabs, typ, lo, hi) && Ok(stabs, typ, lo, hi, address, s)
    requires s.l <= m <= s.r && Typed(stabs, typ, m) && stabs[m].value == s.addr
    ensures Ok(stabs, typ, lo, hi, address, Search(m, s.r, s.addr + 1, m, true))
  {
    hide Below, Above, Has, Sorted, Bumped, None;
    NotNone(stabs, typ, lo, hi, m);
    GoOn(stabs, typ, lo, hi, m);
    BumpMore(stabs, typ, lo, hi, address, s.addr);
  }

  lemma TurnKeeps(stabs: seq<Stab>, typ: int, lo: int, hi: int, address: nat, s: Search)
    requires 0 <= lo && hi < |stabs| && Sorted(stabs, typ, lo, hi) && Ok(stabs, typ, lo, hi, address, s)
    requires 0 <= s.l <= s.r < |stabs|
    ensures Ok(stabs, typ, lo, hi, address, Turn(stabs, typ, s))
  {
    hide Ok, Down, Mid, None, Sorted;
    var mid := Mid(s.l, s.r);
    var m := Down(stabs, typ, s.l, mid);
    DownNone(stabs, typ, s.l, mid);
    if m < s.l {
      MissKeeps(stabs, typ, lo, hi, address, s, mid);
    } else if stabs[m].value < s.addr {
      LessKeeps(stabs, typ, lo, hi, address, s, m, mid);
    } else if stabs[m].value > s.addr {
      MoreKeeps(stabs, typ, lo, hi, address, s, m);
    } else {
      ExactKeeps(stabs, typ, lo, hi, address, s, m);
    }
  }

  /** A turn leads to where the loop leads, and is nearer its end. */
  lemma LoopTurn(stabs: seq<Stab>, typ: int, s: Search)
    requires 0 <= s.l <= s.r < |stabs|
    ensures var s' := Turn(stabs, typ, s);
      && 0 <= s'.l && s'.r < |stabs| && Loop(stabs, typ, s) == Loop(stabs, typ, s')
      && (s'.r - s'.l < s.r - s.l
          || (s'.r - s'.l <= s.r - s.l
             && CountFrom(stabs, typ, s'.addr, s'.l, s'.r) < CountFrom(stabs, typ, s.addr, s.l, s.r)))
  {
    hide CountFrom, Mid, Down;
    var s' := Turn(stabs, typ, s);
    if s'.addr > s.addr {
      CountFalls(stabs, typ, s.addr, s.l, s.r, s'.l);
    }
  }

  lemma LoopEnds(stabs: seq<Stab>, typ: int, s: Search)
    requires 0 <= s.l && s.r < |stabs| && s.l > s.r
    ensures Loop(stabs, typ, s) == s
  {
  }

  /** stab_binsearch. If some entry of the type is at or below the address, left is an entry of the type and right the
      index just before the next one; left is the last entry at or below the address unless there are entries both at
      the address and at the one after it. */
  method StabBinsearch(stabs: seq<Stab>, lo: int, hi: int, typ: int, address: nat) returns (left: int, right: int)
    requires 0 <= lo && hi < |stabs| && Sorted(stabs, typ, lo, hi)
    ensures None(stabs, typ, lo, hi) ==> left == lo && right == lo - 1
    ensures Reaches(stabs, typ, lo, hi, address) ==> Framed(stabs, typ, lo, hi, address, left, right)
    ensures Reaches(stabs, typ, lo, hi, address)
            && !(Has(stabs, typ, lo, hi, address) && Has(stabs, typ, lo, hi, address + 1)) ==>
            stabs[left].value <= address
    ensures (left, right) == Found(stabs, typ, lo, hi, address)
  {
    hide Below, Above, Has, Sorted, Bumped, None, Reaches, Framed, CountFrom, Down, Mid, Typed, Loop;
    left, right := lo, hi;
    var l, r, addr := lo, hi, address;
    var anyMatches := false;
    ghost var start := Search(lo, hi, address, lo, false);
    Nothing(stabs, typ, lo, hi, address);
    assert Ok(stabs, typ, lo, hi, address, start);
    hide Ok;
    while l <= r
      invariant 0 <= l && r < |stabs| && right == r
      invariant Ok(stabs, typ, lo, hi, address, Search(l, r, addr, left, anyMatches))
      invariant Loop(stabs, typ, Search(l, r, addr, left, anyMatches)) == Loop(stabs, typ, start)
      decreases r - l, CountFrom(stabs, typ, addr, l, r)
    {
      ghost var s := Search(l, r, addr, left, anyMatches);
      TurnKeeps(stabs, typ, lo, hi, address, s);
      LoopTurn(stabs, typ, s);
      var mid := Mid(l, r);
      var m := ScanDown(stabs, typ, l, mid);
      if m < l {
        l := mid + 1;
      } else {
        anyMatches := true;
        if stabs[m].value < addr {
          left := m;
          l := mid + 1;
        } else if stabs[m].value > addr {
          right := m - 1;
          r := m - 1;
        } else {
          left := m;
          l := m;
          addr := addr + 1;
        }
      }
      assert Search(l, r, addr, left, anyMatches) == Turn(stabs, typ, s);
    }
    EndsWith(stabs, typ, lo, hi, address, Search(l, r, addr, left, anyMatches));
    LoopEnds(stabs, typ, Search(l, r, addr, left, anyMatches));
    if !anyMatches {
      right := left - 1;
    } else {
      left := ScanDown(stabs, typ, left + 1, right);
    }
  }

  lemma EndsWith(stabs: seq<Stab>, typ: int, lo: int, hi: int, address: nat, s: Search)
    requires 0 <= lo && hi < |stabs| && Ok(stabs, typ, lo, hi, address, s) && s.l > s.r
    ensures 0 <= s.left + 1 && s.r < |stabs|
    ensures !s.any ==> s.left == lo && !Reaches(stabs, typ, lo, hi, address)
    ensures s.any ==> !None(stabs, typ, lo, hi)
    ensures s.any && Reaches(stabs, typ, lo, hi, address) ==>
            var left := Down(stabs, typ, s.left + 1, s.r);
            && Framed(stabs, typ, lo, hi, address, left, s.r)
            && (!(Has(stabs, typ, lo, hi, address) && Has(stabs, typ, lo, hi, address + 1)) ==>
                 stabs[left].value <= address)
  {
    if s.any {
      DownNone(stabs, typ, s.left + 1, s.r);
      Conclude(stabs, typ, lo, hi, address, s.addr, s.l, s.left, Down(stabs, typ, s.left + 1, s.r), s.r);
    } else {
      NoneReaches(stabs, typ, lo, hi, s.l, address);
    }
  }

  // ---------------------------------------------------------------- exactly when the search goes too far

  /** f is the first entry of the type with value v. */
  predicate FirstWith(stabs: seq<Stab>, typ: int, lo: int, hi: int, v: nat, f: int) {
    && lo <= f <= hi && Typed(stabs, typ, f) && stabs[f].value == v
    && forall i :: lo <= i < f && Typed(stabs, typ, i) ==> stabs[i].value != v
  }

  /** From s on, the first exact match comes before entry f has been met. */
  predicate MatchFirst(stabs: seq<Stab>, typ: int, s: Search, f: int)
    requires 0 <= s.l && s.r < |stabs|
    decreases s.r - s.l, CountFrom(stabs, typ, s.addr, s.l, s.r)
  {
    s.l <= s.r &&
    var s' := Turn(stabs, typ, s);
    if s'.addr > s.addr then f <= s.r else MatchFirst(stabs, typ, s', f)
  }

  /** An entry that has been passed stays out of reach. */
  lemma {:induction false} StaysPassed(stabs: seq<Stab>, typ: int, s: Search, f: int)
    requires 0 <= s.l && s.r < |stabs| && s.r < f
    ensures Loop(stabs, typ, s).r < f
    decreases s.r - s.l, CountFrom(stabs, typ, s.addr, s.l, s.r)
  {
    if s.l <= s.r {
      LoopTurn(stabs, typ, s);
      hide Loop, CountFrom;
      StaysPassed(stabs, typ, Turn(stabs, typ, s), f);
    }
  }

  /** One that is at or below the address looked for is never passed. */
  lemma TurnReaches(stabs: seq<Stab>, typ: int, lo: int, hi: int, s: Search, f: int)
    requires 0 <= lo <= s.l <= s.r <= hi < |stabs| && Sorted(stabs, typ, lo, hi)
    requires lo <= f <= s.r && Typed(stabs, typ, f) && stabs[f].value <= s.addr
    ensures f <= Turn(stabs, typ, s).r && s.addr <= Turn(stabs, typ, s).addr
  {
    var m := Down(stabs, typ, s.l, Mid(s.l, s.r));
    if m >= s.l && m < f {
      assert stabs[m].value <= stabs[f].value;
    }
  }

  lemma {:induction false} StaysReached(stabs: seq<Stab>, typ: int, lo: int, hi: int, address: nat, s: Search, f: int)
    requires 0 <= lo && hi < |stabs| && Sorted(stabs, typ, lo, hi) && 0 <= s.l && s.r < |stabs|
    requires Ok(stabs, typ, lo, hi, address, s) && lo <= f <= s.r && Typed(stabs, typ, f) && stabs[f].value <= s.addr
    ensures f <= Loop(stabs, typ, s).r
    decreases s.r - s.l, CountFrom(stabs, typ, s.addr, s.l, s.r)
  {
    if s.l <= s.r {
      LoopTurn(stabs, typ, s);
      TurnKeeps(stabs, typ, lo, hi, address, s);
      TurnReaches(stabs, typ, lo, hi, s, f);
      hide Loop, CountFrom, Turn;
      StaysReached(stabs, typ, lo, hi, address, Turn(stabs, typ, s), f);
    }
  }

  /** Before the first match, the entry at the next address is passed just by being met. */
  lemma {:induction false} ReachedExactly(stabs: seq<Stab>, typ: int, lo: int, hi: int, s: Search, f: int)
    requires 0 <= lo && hi < |stabs| && Sorted(stabs, typ, lo, hi) && 0 <= s.l && s.r < |stabs|
    requires Ok(stabs, typ, lo, hi, s.addr, s) && FirstWith(stabs, typ, lo, hi, s.addr + 1, f)
    ensures MatchFirst(stabs, typ, s, f) <==> f <= Loop(stabs, typ, s).r
    decreases s.r - s.l, CountFrom(stabs, typ, s.addr, s.l, s.r)
  {
    if s.l <= s.r {
      var s' := Turn(stabs, typ, s);
      LoopTurn(stabs, typ, s);
      TurnKeeps(stabs, typ, lo, hi, s.addr, s);
      if s'.addr > s.addr {
        assert s'.addr == s.addr + 1 && s'.r == s.r;
        hide Loop, CountFrom, Turn;
        if f <= s.r {
          StaysReached(stabs, typ, lo, hi, s.addr, s', f);
        } else {
          StaysPassed(stabs, typ, s', f);
        }
      } else {
        assert s'.addr == s.addr;
        hide Loop, CountFrom, Turn;
        ReachedExactly(stabs, typ, lo, hi, s', f);
      }
    }
  }

  /** With an entry at the next address the result is above the address if and only if the search meets an entry at the
      address before it meets the first one at the next. */
  lemma TooFarExactly(stabs: seq<Stab>, typ: int, lo: int, hi: int, address: nat, f: int)
    requires 0 <= lo && hi < |stabs| && Sorted(stabs, typ, lo, hi) && Reaches(stabs, typ, lo, hi, address)
    requires FirstWith(stabs, typ, lo, hi, address + 1, f)
    ensures var left := Found(stabs, typ, lo, hi, address).0;
      && lo <= left <= hi
      && (stabs[left].value > address <==> MatchFirst(stabs, typ, Search(lo, hi, address, lo, false), f))
  {
    hide Loop, Down, MatchFirst, Below, Above, Sorted, Bumped, None, Reaches, Framed, CountFrom, FirstWith;
    var start := Search(lo, hi, address, lo, false);
    Nothing(stabs, typ, lo, hi, address);
    assert Ok(stabs, typ, lo, hi, address, start);
    hide Ok;
    ReachedExactly(stabs, typ, lo, hi, start, f);
    LoopOk(stabs, typ, lo, hi, address, start);
    var s := Loop(stabs, typ, start);
    EndsWith(stabs, typ, lo, hi, address, s);
    LastUpTo(stabs, typ, lo, hi, address, f, Found(stabs, typ, lo, hi, address).0, s.r);
  }

  lemma LastUpTo(stabs: seq<Stab>, typ: int, lo: int, hi: int, address: nat, f: int, left: int, right: int)
    requires 0 <= lo && hi < |stabs| && Sorted(stabs, typ, lo, hi) && FirstWith(stabs, typ, lo, hi, address + 1, f)
    requires Framed(stabs, typ, lo, hi, address, left, right)
    ensures lo <= left <= hi && (stabs[left].value > address <==> f <= right)
  {
    assert f <= right ==> f <= left;
    assert f > right ==> left < f;
  }

  lemma {:induction false} LoopOk(stabs: seq<Stab>, typ: int, lo: int, hi: int, address: nat, s: Search)
    requires 0 <= lo && hi < |stabs| && Sorted(stabs, typ, lo, hi) && 0 <= s.l && s.r < |stabs|
    requires Ok(stabs, typ, lo, hi, address, s)
    ensures var t := Loop(stabs, typ, s); Ok(stabs, typ, lo, hi, address, t) && t.l > t.r
    decreases s.r - s.l, CountFrom(stabs, typ, s.addr, s.l, s.r)
  {
    hide Ok;
    if s.l <= s.r {
      LoopTurn(stabs, typ, s);
      TurnKeeps(stabs, typ, lo, hi, address, s);
      hide Loop, CountFrom, Turn;
      LoopOk(stabs, typ, lo, hi, address, Turn(stabs, typ, s));
    }
  }

  /** No entry of the type is at the last address. */
  ghost predicate BelowTop(stabs: seq<Stab>, typ: int) {
    forall i :: Typed(stabs, typ, i) ==> stabs[i].value < 0xFFFF_FFFF
  }

  /** Then the address sought stays a 32-bit one, from the first turn to the last. */
  lemma {:induction false} FitsInWord(stabs: seq<Stab>, typ: int, s: Search)
    requires 0 <= s.l && s.r < |stabs| && s.addr < 0x1_0000_0000 && BelowTop(stabs, typ)
    ensures s.l <= s.r ==> Turn(stabs, typ, s).addr < 0x1_0000_0000
    ensures Loop(stabs, typ, s).addr < 0x1_0000_0000
    decreases s.r - s.l, CountFrom(stabs, typ, s.addr, s.l, s.r)
  {
    if s.l <= s.r {
      LoopTurn(stabs, typ, s);
      hide Loop, CountFrom;
      FitsInWord(stabs, typ, Turn(stabs, typ, s));
    }
  }
}
