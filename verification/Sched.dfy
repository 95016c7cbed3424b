/** sched_yield's choice: the first RUNNABLE slot in cyclic order, and when the scan ends at all. */
module Sched {
  import opened Mmu
  import opened Syscalls
  import opened Smp

  /** How far slot e lies after slot from, going round; 0 is from itself. */
  function Ahead(from: nat, e: Slot): nat {
    if from % 1024 <= e then e - from % 1024 else e + 1024 - from % 1024
  }

  predicate SomeRunnable(envs: EnvTable) {
    exists e: Slot :: envs[e].status == Runnable
  }

  /** e is RUNNABLE and no RUNNABLE slot comes before it after cur. */
  predicate First(envs: EnvTable, cur: Option<Slot>, e: Slot) {
    && envs[e].status == Runnable
    && (forall f: Slot :: envs[f].status == Runnable ==> Ahead(Initial(cur), e) <= Ahead(Initial(cur), f))
  }

  /** What the comment on sched_yield asks for. None: the CPU halts. */
  ghost predicate Chosen(envs: EnvTable, cur: Option<Slot>, r: Option<Slot>) {
    if SomeRunnable(envs) then r.Some? && First(envs, cur, r.value)
    else if cur.Some? && envs[cur.value].status == Running then r == cur
    else r == None
  }

  /** The one state in which the scan never ends: nothing is RUNNABLE and the current environment is in the last
      slot, so that the stop test compares a remainder with NENV itself. */
  predicate Endless(envs: EnvTable, cur: Option<Slot>) {
    cur == Some(1023) && !SomeRunnable(envs)
  }

  /** sched_yield's loop; i is the index it stops at, and the turns are those of module Smp. */
  method SchedYield(envs: EnvTable, cur: Option<Slot>) returns (r: Option<Slot>, i: nat)
    requires !Endless(envs, cur)
    ensures Chosen(envs, cur, r)
    ensures Initial(cur) <= i && forall j: nat :: Initial(cur) <= j < i ==> ScanStep(cur, envs, j) == Scan(j + 1)
    ensures ScanStep(cur, envs, i) == if r.Some? then Run1(r.value) else HaltCheck
  {
    var initial := Initial(cur);
    i := initial;
    while true
      invariant initial <= i <= initial + 1024
      invariant forall f: Slot :: envs[f].status == Runnable ==> i - initial <= Ahead(initial, f)
      invariant forall j: nat :: initial <= j < i ==> ScanStep(cur, envs, j) == Scan(j + 1)
      decreases initial + 1024 - i
    {
      if i >= 1024 && i % 1024 == initial {
        ComeRound(initial, i);
        assert !SomeRunnable(envs);
        if cur.Some? && envs[cur.value].status == Running && envs[(i - 1) % 1024].id == envs[cur.value].id {
          return cur, i;
        }
        return None, i;
      }
      if envs[i % 1024].status == Runnable {
        AheadIs(initial, i);
        assert First(envs, cur, i % 1024);
        return Some(i % 1024), i;
      }
      Further(envs, initial, i);
      i := i + 1;
    }
  }

  lemma AheadIs(initial: nat, i: nat)
    requires initial <= i < initial + 1024
    ensures Ahead(initial, i % 1024) == i - initial
  {
    var q := initial / 1024;
    assert initial == q * 1024 + initial % 1024;
    if i < (q + 1) * 1024 {
      assert i % 1024 == i - q * 1024;
    } else {
      assert i % 1024 == i - (q + 1) * 1024;
    }
  }

  lemma ComeRound(initial: nat, i: nat)
    requires initial <= i <= initial + 1024 && initial <= 1024 && i >= 1024 && i % 1024 == initial
    ensures i == initial + 1024
    ensures forall f: Slot :: Ahead(initial, f) < 1024
    ensures initial > 0 ==> (i - 1) % 1024 == initial - 1
  {
  }

  /** If slot i is not RUNNABLE the next RUNNABLE one is further on; the scan has not come round yet unless
      it never will. */
  lemma Further(envs: EnvTable, initial: nat, i: nat)
    requires initial <= 1024 && initial <= i <= initial + 1024 && !(i >= 1024 && i % 1024 == initial)
    requires initial < 1024 || SomeRunnable(envs)
    requires envs[i % 1024].status != Runnable
    requires forall f: Slot :: envs[f].status == Runnable ==> i - initial <= Ahead(initial, f)
    ensures i < initial + 1024
    ensures forall f: Slot :: envs[f].status == Runnable ==> i + 1 - initial <= Ahead(initial, f)
  {
    assert forall f: Slot :: Ahead(initial, f) < 1024;
    if i < initial + 1024 {
      AheadIs(initial, i);
      forall f: Slot | envs[f].status == Runnable ensures i + 1 - initial <= Ahead(initial, f) {
        SameSlot(initial, f, i % 1024);
      }
    }
  }

  lemma SameSlot(from: nat, e: Slot, f: Slot)
    ensures Ahead(from, e) == Ahead(from, f) ==> e == f
  {
  }

  /** The scan ends if and only if it does not start in the endless state. */
  lemma EndsExactly(envs: EnvTable, cur: Option<Slot>)
    ensures (exists i: nat :: Initial(cur) <= i && !ScanStep(cur, envs, i).Scan?) <==> !Endless(envs, cur)
  {
    if Endless(envs, cur) {
      forall i: nat | Initial(cur) <= i ensures ScanStep(cur, envs, i).Scan? {
        assert i % 1024 < 1024;
      }
    } else if SomeRunnable(envs) {
      var e: Slot :| envs[e].status == Runnable;
      var i := 1024 + e;
      assert Initial(cur) <= i && i % 1024 == e && !ScanStep(cur, envs, i).Scan?;
    } else {
      var i := 1024 + Initial(cur);
      assert Stop(Initial(cur), i) && !ScanStep(cur, envs, i).Scan?;
    }
  }

  /** Passing e over brings the CPU strictly closer to it. */
  lemma Closer(envs: EnvTable, cur: Slot, r: Slot, e: Slot)
    requires Chosen(envs, Some(cur), Some(r)) && envs[e].status == Runnable && r != e
    ensures Ahead(Initial(Some(r)), e) < Ahead(Initial(Some(cur)), e)
  {
    assert First(envs, Some(cur), r);
    SameSlot(cur + 1, r, e);
  }
}
