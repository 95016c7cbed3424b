/** Whole runs of the multi-CPU kernel from boot, and exactly which uses of two system calls they rely on. */
module SmpRuns {
  import opened Mmu
  import opened Vm
  import opened Syscalls
  import opened Smp

  datatype Move = Move(cpu: nat, action: Action)

  function RunMoves(s: Smp, moves: seq<Move>): (r: Smp)
    ensures |r.cpus| == |s.cpus|
    decreases |moves|
  {
    if moves == [] then s else
    var before := RunMoves(s, moves[..|moves| - 1]);
    var m := moves[|moves| - 1];
    if m.cpu < |before.cpus| then Next(before, m.cpu, m.action) else before
  }

  /** Every call in the run keeps to the restricted alphabet. */
  predicate PermittedRun(s: Smp, moves: seq<Move>)
    decreases |moves|
  {
    moves == [] ||
    (var before := RunMoves(s, moves[..|moves| - 1]);
     var m := moves[|moves| - 1];
     && PermittedRun(s, moves[..|moves| - 1])
     && (m.cpu < |before.cpus| ==> Permitted(before.cpus[m.cpu], before.sys.envs, m.action)))
  }

  /** The end of boot: CPU 0 has the lock and is about to schedule, the others wait for the lock in mp_main,
      and no environment has run. */
  ghost predicate Booted(s: Smp, managed: set<nat>) {
    && SystemOk(s.sys, managed) && RecvOk(s.sys.envs)
    && (forall e: Slot :: !OnCpu(s.sys.envs[e].status))
    && |s.cpus| > 0 && s.cpus[0] == Cpu(Scan(0), false, false, None, 1, 1, 0)
    && (forall c :: 0 < c < |s.cpus| ==> s.cpus[c] == Cpu(Acquire(AtBoot), false, false, None, 1, 0, 0))
    && s.lock == Lock(true, Some(0))
  }

  lemma BootInv(s: Smp, managed: set<nat>)
    requires Booted(s, managed)
    ensures Inv(s, managed)
  {
    hide SystemOk;
    assert Holding(s.cpus[0]);
  }

  /** No lock assertion has failed; a CPU outside the kernel has taken and released the lock once for every time
      it entered; in user mode it runs an environment that is RUNNING or a zombie; halted it has none. */
  predicate CpuSafe(cpu: Cpu, envs: EnvTable) {
    && !cpu.pc.Panic?
    && (cpu.pc.User? || cpu.pc.Halted? ==> cpu.entries == cpu.acquired == cpu.released)
    && (cpu.pc.User? ==> cpu.cur.Some? && OnCpu(envs[cpu.cur.value].status))
    && (cpu.pc.Halted? ==> cpu.cur.None? && cpu.halted)
  }

  /** What the kernel guarantees at every moment: at most one CPU is in the kernel proper, no environment is
      current on two CPUs, and a RUNNING or DYING one is current on one. */
  ghost predicate Safe(s: Smp) {
    && (forall c :: 0 <= c < |s.cpus| ==> CpuSafe(s.cpus[c], s.sys.envs))
    && (forall c, d :: 0 <= c < d < |s.cpus| ==> !Holding(s.cpus[c]) || !Holding(s.cpus[d]))
    && (forall c, d :: 0 <= c < d < |s.cpus| && s.cpus[c].cur.Some? ==> s.cpus[c].cur != s.cpus[d].cur)
    && (forall e: Slot :: OnCpu(s.sys.envs[e].status) ==> Owned(s, e))
  }

  lemma OkIsSafe(cpu: Cpu, envs: EnvTable)
    requires CpuOk(cpu, envs)
    ensures CpuSafe(cpu, envs)
  {
  }

  lemma InvSafe(s: Smp, managed: set<nat>)
    requires Inv(s, managed)
    ensures Safe(s)
  {
    hide SystemOk, CpuOk, CpuSafe;
    forall c | 0 <= c < |s.cpus| ensures CpuSafe(s.cpus[c], s.sys.envs) {
      OkIsSafe(s.cpus[c], s.sys.envs);
    }
  }

  lemma {:induction false} RunKeepsInv(s: Smp, managed: set<nat>, moves: seq<Move>)
    requires Inv(s, managed) && PermittedRun(s, moves)
    ensures Inv(RunMoves(s, moves), managed)
    decreases |moves|
  {
    hide Inv, Next, Permitted;
    if moves != [] {
      var before := moves[..|moves| - 1];
      var m := moves[|moves| - 1];
      RunKeepsInv(s, managed, before);
      if m.cpu < |s.cpus| {
        NextKeeps(RunMoves(s, before), managed, m.cpu, m.action);
      }
    }
  }

  /** Any number of CPUs, any interleaving: every run from boot stays safe. */
  lemma EveryRunSafe(s: Smp, managed: set<nat>, moves: seq<Move>)
    requires Booted(s, managed) && PermittedRun(s, moves)
    ensures Safe(RunMoves(s, moves))
  {
    hide *;
    BootInv(s, managed);
    RunKeepsInv(s, managed, moves);
    InvSafe(RunMoves(s, moves), managed);
  }

  // ---------------------------------------------------------------- serial runs

  /** The events a run performs, in the order the lock serialised them. */
  function Serial(s: Smp, moves: seq<Move>): seq<Event>
    decreases |moves|
  {
    if moves == [] then [] else
    var before := RunMoves(s, moves[..|moves| - 1]);
    var m := moves[|moves| - 1];
    var rest := Serial(s, moves[..|moves| - 1]);
    if m.cpu >= |before.cpus| then rest else
    match EventOf(before.cpus[m.cpu], before.sys.envs, m.action)
    case None => rest
    case Some(ev) => rest + [ev]
  }

  /** A multi-CPU run leaves the pages and environments as the single-CPU run of its events does. */
  lemma {:induction false} RunSerial(s: Smp, moves: seq<Move>)
    ensures RunMoves(s, moves).sys == Run(s.sys, Serial(s, moves))
    decreases |moves|
  {
    if moves != [] {
      var before := moves[..|moves| - 1];
      var m := moves[|moves| - 1];
      RunSerial(s, before);
      hide Control, Step, EventOf;
      var t := RunMoves(s, before);
      if m.cpu < |t.cpus| {
        var ev := EventOf(t.cpus[m.cpu], t.sys.envs, m.action);
        if ev.Some? {
          var events := Serial(s, before) + [ev.value];
          assert events[..|events| - 1] == Serial(s, before);
        }
      }
    }
  }

  // ---------------------------------------------------------------- the restrictions are exact

  /** sys_env_set_status and sys_env_destroy keep the invariant if and only if the restriction holds. */
  lemma AllowedExactly(s: Smp, managed: set<nat>, c: nat, ev: Event)
    requires Inv(s, managed) && c < |s.cpus| && s.cpus[c].pc.Dispatch?
    requires (ev.CallSetStatus? || ev.CallDestroy?) && s.cpus[c].cur == Some(ev.cur)
    requires s.sys.envs[ev.cur].status == Running
    ensures Inv(Next(s, c, Call(ev)), managed) <==> Allowed(s.sys.envs, ev)
  {
    if Allowed(s.sys.envs, ev) {
      hide Inv, Next, Allowed;
      NextKeeps(s, managed, c, Call(ev));
    } else {
      var e := EnvOf(s.sys.envs, ev.cur, ev.envid, true).value;
      if OnCpu(s.sys.envs[e].status) && e != ev.cur {
        TakenAway(s, managed, c, ev, e);
      } else {
        hide LockOk, Apart, AllOwned, CpuOk;
        WokenEarly(s, c, ev, e);
      }
    }
  }

  lemma WokenEarly(s: Smp, c: nat, ev: Event, e: Slot)
    requires c < |s.cpus| && s.cpus[c].pc.Dispatch? && s.cpus[c].cur == Some(ev.cur)
    requires (ev.CallSetStatus? || ev.CallDestroy?) && s.sys.envs[ev.cur].status == Running
    requires EnvOf(s.sys.envs, ev.cur, ev.envid, true) == Some(e) && !Allowed(s.sys.envs, ev)
    requires !OnCpu(s.sys.envs[e].status) || e == ev.cur
    ensures !RecvOk(Next(s, c, Call(ev)).sys.envs)
  {
    hide DispatchStep;
    assert s.sys.envs[e].recving && ev.CallSetStatus?;
    var s' := Next(s, c, Call(ev));
    assert s'.sys.envs[e].recving && s'.sys.envs[e].status == Runnable;
  }

  lemma TakenAway(s: Smp, managed: set<nat>, c: nat, ev: Event, e: Slot)
    requires Inv(s, managed) && c < |s.cpus| && s.cpus[c].pc.Dispatch? && s.cpus[c].cur == Some(ev.cur)
    requires (ev.CallSetStatus? || ev.CallDestroy?) && s.sys.envs[ev.cur].status == Running
    requires EnvOf(s.sys.envs, ev.cur, ev.envid, true) == Some(e) && !Allowed(s.sys.envs, ev)
    requires OnCpu(s.sys.envs[e].status) && e != ev.cur
    ensures !Inv(Next(s, c, Call(ev)), managed)
    ensures exists d ::
              && 0 <= d < |s.cpus| && d != c && s.cpus[d].cur == Some(e)
              && !CpuOk(Next(s, c, Call(ev)).cpus[d], Next(s, c, Call(ev)).sys.envs)
  {
    hide SystemOk, LockOk, Apart, RecvOk, DropSpace, DispatchStep;
    var s' := Next(s, c, Call(ev));
    assert Owned(s, e);
    var d :| 0 <= d < |s.cpus| && s.cpus[d].cur == Some(e);
    assert CpuOk(s.cpus[d], s.sys.envs);
    assert !Holding(s.cpus[d]) by {
      assert s.cpus[c].cur != s.cpus[d].cur;
      assert LockOk(s);
      OneHolder(s, c, d);
    }
    assert s'.cpus[d] == s.cpus[d];
    assert !OnCpu(s'.sys.envs[e].status);
    assert !CpuOk(s'.cpus[d], s'.sys.envs);
  }

  lemma OneHolder(s: Smp, c: nat, d: nat)
    requires LockOk(s) && c < |s.cpus| && d < |s.cpus| && c != d && Holding(s.cpus[c])
    ensures !Holding(s.cpus[d])
  {
  }

  /** n steps of one CPU that has nothing left to choose. */
  function Go(s: Smp, c: nat, n: nat): (r: Smp)
    requires c < |s.cpus|
    ensures |r.cpus| == |s.cpus|
    ensures forall d :: 0 <= d < |s.cpus| && d != c ==> r.cpus[d] == s.cpus[d]
    decreases n
  {
    if n == 0 then s else Go(Next(s, c, Return), c, n - 1)
  }

  /** What goes wrong without it: a parent sets its RUNNING child runnable, yields, and is given the child, so
      that two CPUs run the same environment in user mode. */
  lemma RunOnTwoCpus(s: Smp, managed: set<nat>, c: nat, d: nat, p: Slot, e: Slot)
    requires Inv(s, managed) && c < |s.cpus| && d < |s.cpus| && c != d && e == p + 1
    requires s.cpus[c].pc.Dispatch? && s.cpus[c].cur == Some(p) && s.sys.envs[p].status == Running
    requires s.cpus[d].pc.User? && s.cpus[d].cur == Some(e) && s.sys.envs[e].parent == s.sys.envs[p].id
    ensures var woken := Next(s, c, Call(CallSetStatus(p, s.sys.envs[e].id, Runnable)));
      var s' := Go(Next(woken, c, Yield), c, 7);
      s'.cpus[c].pc.User? && s'.cpus[c].cur == Some(e) && s'.cpus[d].pc.User? && s'.cpus[d].cur == Some(e)
  {
    DispatchFacts(s, managed, c, d, e);
    hide Inv, Go, Control, Perform;
    var s1 := Next(s, c, Call(CallSetStatus(p, s.sys.envs[e].id, Runnable)));
    WakeRunning(s, c, p, e);
    Yielding(s1, c, p);
    assert s1.cpus[d] == s.cpus[d] && Next(s1, c, Yield).cpus[d] == s.cpus[d];
    hide Next;
    Handover(Next(s1, c, Yield), c, p, e);
  }

  lemma DispatchFacts(s: Smp, managed: set<nat>, c: nat, d: nat, e: Slot)
    requires Inv(s, managed) && c < |s.cpus| && d < |s.cpus| && s.cpus[c].pc.Dispatch?
    requires s.cpus[d].pc.User? && s.cpus[d].cur == Some(e)
    ensures s.lock == Lock(true, Some(c)) && EnvOk(s.sys.envs[e], e) && s.sys.envs[e].status != Free
  {
    assert CpuOk(s.cpus[d], s.sys.envs) && Holding(s.cpus[c]) && Named(s.cpus[c]);
    assert EnvTableOk(s.sys);
    hide SystemOk, Apart, AllOwned, RecvOk;
  }

  lemma WakeRunning(s: Smp, c: nat, p: Slot, e: Slot)
    requires c < |s.cpus| && s.cpus[c].pc.Dispatch? && s.cpus[c].cur == Some(p) && s.sys.envs[p].status == Running
    requires p != e
    requires EnvOk(s.sys.envs[e], e) && s.sys.envs[e].status != Free && s.sys.envs[e].parent == s.sys.envs[p].id
    ensures var s' := Next(s, c, Call(CallSetStatus(p, s.sys.envs[e].id, Runnable)));
      && s'.cpus[c] == s.cpus[c] && s'.lock == s.lock
      && s'.sys.envs == s.sys.envs[e := s.sys.envs[e].(status := Runnable)]
  {
    assert EnvOf(s.sys.envs, p, s.sys.envs[e].id, true) == Some(e);
  }

  lemma Yielding(s: Smp, c: nat, p: Slot)
    requires c < |s.cpus| && s.cpus[c].pc.Dispatch? && s.cpus[c].cur == Some(p)
    ensures var s' := Next(s, c, Yield);
      s'.cpus[c] == s.cpus[c].(pc := Scan(p + 1)) && s'.sys == s.sys && s'.lock == s.lock
  {
  }

  lemma Handover(s: Smp, c: nat, p: Slot, e: Slot)
    requires c < |s.cpus| && s.lock == Lock(true, Some(c))
    requires s.cpus[c].pc == Scan(e) && s.cpus[c].cur == Some(p) && p != e && s.sys.envs[e].status == Runnable
    ensures var s' := Go(s, c, 7);
      && s'.cpus[c].pc.User? && s'.cpus[c].cur == Some(e) && s'.lock == Lock(false, None)
      && SameBut(s.sys.envs, s'.sys.envs, p, e)
      && (s.sys.envs[e].status == Runnable ==> s'.sys.envs[e].status == Running)
  {
    hide Step, Go;
    var s1 := Next(s, c, Return);
    assert s1.cpus[c].pc == Run1(e) && s1.cpus[c].cur == Some(p) && s1.lock == s.lock && s1.sys == s.sys;
    hide Next;
    GoOn(s, c, 7);
    Switch(s1, c, p, e);
  }

  /** Only p's and e's statuses differ. */
  ghost predicate SameBut(envs: EnvTable, envs': EnvTable, p: Slot, e: Slot) {
    && (forall f: Slot :: f != p && f != e ==> envs'[f] == envs[f])
    && envs'[e] == envs[e].(status := envs'[e].status)
  }

  lemma PutsBack(s: Smp, c: nat, p: Slot, e: Slot)
    requires c < |s.cpus| && s.cpus[c].pc == Run1(e) && s.cpus[c].cur == Some(p) && p != e
    ensures var s' := Next(s, c, Return);
      && s'.cpus[c].pc == Run2(e) && s'.lock == s.lock
      && SameBut(s.sys.envs, s'.sys.envs, p, e) && s'.sys.envs[e] == s.sys.envs[e]
  {
  }

  lemma SetsRunning(s: Smp, c: nat, e: Slot)
    requires c < |s.cpus| && s.cpus[c].pc == Run3(e)
    ensures var s' := Next(s, c, Return);
      && s'.cpus[c] == s.cpus[c].(pc := Release1(false)) && s'.lock == s.lock
      && SameBut(s.sys.envs, s'.sys.envs, e, e)
      && (s.sys.envs[e].status == Runnable ==> s'.sys.envs[e].status == Running)
  {
  }

  lemma Switch(s: Smp, c: nat, p: Slot, e: Slot)
    requires c < |s.cpus| && s.lock == Lock(true, Some(c)) && s.cpus[c].pc == Run1(e) && s.cpus[c].cur == Some(p)
    requires p != e
    ensures var s' := Go(s, c, 6);
      && s'.cpus[c].pc.User? && s'.cpus[c].cur == Some(e) && s'.lock == Lock(false, None)
      && SameBut(s.sys.envs, s'.sys.envs, p, e)
      && (s.sys.envs[e].status == Runnable ==> s'.sys.envs[e].status == Running)
  {
    hide Step, Go, EventOf;
    var s2 := Next(s, c, Return);
    PutsBack(s, c, p, e);
    var s3 := Next(s2, c, Return);
    assert s3.cpus[c].pc == Run3(e) && s3.cpus[c].cur == Some(e) && s3.lock == s.lock;
    assert s3.sys == s2.sys by {
      assert EventOf(s2.cpus[c], s2.sys.envs, Return).None? by {
        Run2Quiet(s2.cpus[c], s2.sys.envs);
      }
    }
    var s4 := Next(s3, c, Return);
    SetsRunning(s3, c, e);
    hide Next;
    GoOn(s, c, 6);
    GoOn(s2, c, 5);
    GoOn(s3, c, 4);
    Leave(s4, c);
  }

  lemma Run2Quiet(cpu: Cpu, envs: EnvTable)
    requires cpu.pc.Run2?
    ensures EventOf(cpu, envs, Return).None?
  {
  }

  lemma GoOn(s: Smp, c: nat, n: nat)
    requires c < |s.cpus| && n > 0
    ensures Go(s, c, n) == Go(Next(s, c, Return), c, n - 1)
  {
  }

  lemma Leave(s: Smp, c: nat)
    requires c < |s.cpus| && s.lock == Lock(true, Some(c)) && s.cpus[c].pc == Release1(false)
    ensures var s' := Go(s, c, 3);
      s'.cpus[c].pc.User? && s'.cpus[c].cur == s.cpus[c].cur && s'.lock == Lock(false, None) && s'.sys == s.sys
  {
    hide Go, Next;
    var s1 := Next(s, c, Return);
    GivesUp(s, c);
    var s2 := Next(s1, c, Return);
    Unlocks(s1, c);
    var s3 := Next(s2, c, Return);
    Pops(s2, c);
    GoOn(s, c, 3);
    GoOn(s1, c, 2);
    GoOn(s2, c, 1);
    GoZero(s3, c);
  }

  lemma GivesUp(s: Smp, c: nat)
    requires c < |s.cpus| && s.lock == Lock(true, Some(c)) && s.cpus[c].pc == Release1(false)
    ensures var s' := Next(s, c, Return);
      && |s'.cpus| == |s.cpus|
      && s'.cpus[c] == s.cpus[c].(pc := Release2(false)) && s'.sys == s.sys && s'.lock == Lock(true, None)
  {
    hide Step, DispatchStep, ScanStep;
  }

  lemma Unlocks(s: Smp, c: nat)
    requires c < |s.cpus| && s.lock == Lock(true, None) && s.cpus[c].pc == Release2(false)
    ensures var s' := Next(s, c, Return);
      && |s'.cpus| == |s.cpus|
      && s'.cpus[c].pc == Pop && s'.cpus[c].cur == s.cpus[c].cur && s'.sys == s.sys && s'.lock == Lock(false, None)
  {
    hide Step, DispatchStep, ScanStep;
  }

  lemma Pops(s: Smp, c: nat)
    requires c < |s.cpus| && s.cpus[c].pc == Pop
    ensures var s' := Next(s, c, Return);
      && |s'.cpus| == |s.cpus|
      && s'.cpus[c].pc == User && s'.cpus[c].cur == s.cpus[c].cur && s'.sys == s.sys && s'.lock == s.lock
  {
    hide Step, DispatchStep, ScanStep;
  }

  lemma GoZero(s: Smp, c: nat)
    requires c < |s.cpus|
    ensures Go(s, c, 0) == s
  {
  }

  // ---------------------------------------------------------------- what a second destroy and an early waking do

  /** A child that runs on another CPU is destroyed twice: the first time it becomes a zombie, the second time its
      environment is freed while that CPU is still running it. */
  lemma DestroyedTwice(s: Smp, managed: set<nat>, c: nat, d: nat, p: Slot, e: Slot)
    requires Inv(s, managed) && c < |s.cpus| && d < |s.cpus| && p != e
    requires s.cpus[c].pc.Dispatch? && s.cpus[c].cur == Some(p) && s.sys.envs[p].status == Running
    requires s.cpus[d].pc.User? && s.cpus[d].cur == Some(e) && s.sys.envs[e].status == Running
    requires s.sys.envs[e].parent == s.sys.envs[p].id
    ensures var destroy := Call(CallDestroy(p, s.sys.envs[e].id));
      var once := Next(s, c, destroy);
      Safe(once) && !Safe(Next(once, c, destroy))
  {
    DispatchFacts(s, managed, c, d, e);
    assert EnvOf(s.sys.envs, p, s.sys.envs[e].id, true) == Some(e);
    var destroy := Call(CallDestroy(p, s.sys.envs[e].id));
    NextKeeps(s, managed, c, destroy);
    InvSafe(Next(s, c, destroy), managed);
    hide Inv, Safe, DropSpace;
    BecomesZombie(s, c, p, e);
    FreedWhileRunning(Next(s, c, destroy), c, d, p, e);
  }

  lemma BecomesZombie(s: Smp, c: nat, p: Slot, e: Slot)
    requires c < |s.cpus| && p != e && EnvOf(s.sys.envs, p, s.sys.envs[e].id, true) == Some(e)
    requires s.cpus[c].pc.Dispatch? && s.cpus[c].cur == Some(p) && s.sys.envs[p].status == Running
    requires s.sys.envs[e].status == Running
    ensures var s' := Next(s, c, Call(CallDestroy(p, s.sys.envs[e].id)));
      s'.cpus == s.cpus && s'.sys.envs == s.sys.envs[e := s.sys.envs[e].(status := Dying)]
  {
  }

  lemma FreedWhileRunning(s: Smp, c: nat, d: nat, p: Slot, e: Slot)
    requires c < |s.cpus| && d < |s.cpus| && c != d && p != e
    requires EnvOf(s.sys.envs, p, s.sys.envs[e].id, true) == Some(e)
    requires s.cpus[c].pc.Dispatch? && s.cpus[c].cur == Some(p) && s.sys.envs[p].status == Running
    requires s.cpus[d].pc.User? && s.cpus[d].cur == Some(e) && s.sys.envs[e].status == Dying
    ensures !Safe(Next(s, c, Call(CallDestroy(p, s.sys.envs[e].id))))
  {
    hide DropSpace, DispatchStep;
    var s' := Next(s, c, Call(CallDestroy(p, s.sys.envs[e].id)));
    assert s'.cpus[d] == s.cpus[d] && s'.sys.envs[e].status == Free;
    assert !CpuSafe(s'.cpus[d], s'.sys.envs);
  }

  /** From user mode to trap_dispatch when the lock is free. */
  lemma Enters(s: Smp, d: nat, q: Slot)
    requires d < |s.cpus| && s.lock == Lock(false, None) && s.cpus[d].pc.User? && !s.cpus[d].halted
    requires s.cpus[d].cur == Some(q) && s.sys.envs[q].status == Running
    ensures var s' := Entered(s, d);
      s'.cpus[d].pc.Dispatch? && s'.cpus[d].cur == Some(q) && s'.sys == s.sys
  {
    hide Step, Go, DispatchStep, ScanStep;
    var s0 := Next(s, d, Interrupt);
    assert s0.cpus[d].pc.TrapIn? && s0.cpus[d].fromUser && s0.cpus[d].cur == Some(q) && !s0.cpus[d].halted;
    var s1 := Next(s0, d, Return);
    assert s1.cpus[d].pc.CheckMode? && s1.cpus[d].fromUser && s1.cpus[d].cur == Some(q);
    var s2 := Next(s1, d, Return);
    assert s2.cpus[d].pc == Acquire(FromUser) && s2.cpus[d].cur == Some(q);
    hide Next;
    GoOn(s0, d, 6);
    GoOn(s1, d, 5);
    Locks(s2, d, q);
  }

  lemma Locks(s: Smp, d: nat, q: Slot)
    requires d < |s.cpus| && s.lock == Lock(false, None) && s.cpus[d].pc == Acquire(FromUser)
    requires s.cpus[d].cur == Some(q) && s.sys.envs[q].status == Running
    ensures var s' := Go(s, d, 4);
      s'.cpus[d].pc.Dispatch? && s'.cpus[d].cur == Some(q) && s'.sys == s.sys
  {
    hide Go, Step, DispatchStep, ScanStep;
    var s1 := Next(s, d, Return);
    assert s1.cpus[d].pc == Spin(FromUser) && s1.cpus[d].cur == Some(q) && s1.lock == s.lock && s1.sys == s.sys;
    var s2 := Next(s1, d, Return);
    assert s2.cpus[d].pc == Record(FromUser) && s2.cpus[d].cur == Some(q) && s2.sys == s.sys;
    hide Next;
    GoOn(s, d, 4);
    GoOn(s1, d, 3);
    Locked(s2, d, q);
  }

  lemma Locked(s: Smp, d: nat, q: Slot)
    requires d < |s.cpus| && s.cpus[d].pc == Record(FromUser)
    requires s.cpus[d].cur == Some(q) && s.sys.envs[q].status == Running
    ensures var s' := Go(s, d, 2);
      s'.cpus[d].pc.Dispatch? && s'.cpus[d].cur == Some(q) && s'.sys == s.sys
  {
    hide Go, Step, DispatchStep, ScanStep;
    var s3 := Next(s, d, Return);
    assert s3.cpus[d].pc == Zombie && s3.cpus[d].cur == Some(q) && s3.sys == s.sys;
    var s4 := Next(s3, d, Return);
    assert s4.cpus[d].pc == Dispatch && s4.cpus[d].cur == Some(q) && s4.sys == s.sys;
    hide Next;
    GoOn(s, d, 2);
    GoOn(s3, d, 1);
    GoZero(s4, d);
  }

  /** CPU c sets e runnable, yields, and is given e. */
  function Given(s: Smp, c: nat, p: Slot, e: Slot): (r: Smp)
    requires c < |s.cpus|
    ensures |r.cpus| == |s.cpus|
  {
    Go(Next(Next(s, c, Call(CallSetStatus(p, s.sys.envs[e].id, Runnable))), c, Yield), c, 7)
  }

  /** CPU d traps and gets to trap_dispatch. */
  function Entered(s: Smp, d: nat): (r: Smp)
    requires d < |s.cpus|
    ensures |r.cpus| == |s.cpus|
  {
    Go(Next(s, d, Interrupt), d, 6)
  }

  /** A parent sets its receiving child runnable and yields to it; then somebody else sends to the child, which is still
      marked as receiving. The send makes it RUNNABLE while it runs in user mode. */
  lemma WokenReceiver(s: Smp, managed: set<nat>, c: nat, d: nat, p: Slot, q: Slot, e: Slot, perm: Perm)
    requires Inv(s, managed) && c < |s.cpus| && d < |s.cpus| && e == p + 1 && q != e
    requires s.cpus[c].pc.Dispatch? && s.cpus[c].cur == Some(p) && s.sys.envs[p].status == Running
    requires s.cpus[d].pc.User? && s.cpus[d].cur == Some(q) && s.sys.envs[q].status == Running
    requires s.sys.envs[e].status == NotRunnable && s.sys.envs[e].recving && s.sys.envs[e].parent == s.sys.envs[p].id
    ensures !Safe(Next(Entered(Given(s, c, p, e), d), d, Call(CallIpcTrySend(q, s.sys.envs[e].id, 0, UTOP, perm))))
  {
    hide *;
    ReceiverFacts(s, managed, c, d, p, q, e);
    GivenAway(s, c, d, p, q, e);
    Enters(Given(s, c, p, e), d, q);
    EnteredSame(Given(s, c, p, e), c, d);
    SentWhileRunning(Entered(Given(s, c, p, e), d), c, d, q, e, perm);
  }

  lemma EnteredSame(s: Smp, c: nat, d: nat)
    requires c < |s.cpus| && d < |s.cpus| && c != d
    ensures Entered(s, d).cpus[c] == s.cpus[c]
  {
    hide Control, Perform, EventOf;
  }

  lemma GivenAway(s: Smp, c: nat, d: nat, p: Slot, q: Slot, e: Slot)
    requires c < |s.cpus| && d < |s.cpus| && c != d && e == p + 1 && q != e && q != p && s.lock == Lock(true, Some(c))
    requires s.cpus[c].pc.Dispatch? && s.cpus[c].cur == Some(p) && s.sys.envs[p].status == Running
    requires s.sys.envs[e].status == NotRunnable && s.sys.envs[e].parent == s.sys.envs[p].id && EnvOk(s.sys.envs[e], e)
    ensures var t := Given(s, c, p, e);
      && t.cpus[c].pc.User? && t.cpus[c].cur == Some(e) && t.lock == Lock(false, None) && t.cpus[d] == s.cpus[d]
      && t.sys.envs[q] == s.sys.envs[q] && t.sys.envs[e] == s.sys.envs[e].(status := Running)
      && EnvOk(t.sys.envs[e], e)
  {
    hide Go, Control, Perform;
    var s1 := Next(s, c, Call(CallSetStatus(p, s.sys.envs[e].id, Runnable)));
    WakeRunning(s, c, p, e);
    Yielding(s1, c, p);
    assert s1.cpus[d] == s.cpus[d] && Next(s1, c, Yield).cpus[d] == s.cpus[d];
    hide Next;
    Handover(Next(s1, c, Yield), c, p, e);
  }

  lemma ReceiverFacts(s: Smp, managed: set<nat>, c: nat, d: nat, p: Slot, q: Slot, e: Slot)
    requires Inv(s, managed) && c < |s.cpus| && d < |s.cpus|
    requires s.cpus[c].pc.Dispatch? && s.cpus[c].cur == Some(p) && s.cpus[d].pc.User? && s.cpus[d].cur == Some(q)
    requires s.sys.envs[e].status != Free
    ensures c != d && p != q && s.lock == Lock(true, Some(c)) && EnvOk(s.sys.envs[e], e) && !s.cpus[d].halted
  {
    DispatchFacts(s, managed, c, d, q);
    assert CpuOk(s.cpus[d], s.sys.envs);
    assert EnvTableOk(s.sys);
    hide SystemOk, AllOwned, RecvOk;
  }

  lemma SentWhileRunning(s: Smp, c: nat, d: nat, q: Slot, e: Slot, perm: Perm)
    requires c < |s.cpus| && d < |s.cpus| && c != d && q != e
    requires s.cpus[d].pc.Dispatch? && s.cpus[d].cur == Some(q) && s.sys.envs[q].status == Running
    requires s.cpus[c].pc.User? && s.cpus[c].cur == Some(e)
    requires EnvOk(s.sys.envs[e], e) && s.sys.envs[e].status != Free && s.sys.envs[e].recving
    ensures !Safe(Next(s, d, Call(CallIpcTrySend(q, s.sys.envs[e].id, 0, UTOP, perm))))
  {
    hide DispatchStep, Insert;
    assert EnvOf(s.sys.envs, q, s.sys.envs[e].id, false) == Some(e);
    var s' := Next(s, d, Call(CallIpcTrySend(q, s.sys.envs[e].id, 0, UTOP, perm)));
    assert s'.cpus[c] == s.cpus[c] && s'.sys.envs[e].status == Runnable;
    assert !CpuSafe(s'.cpus[c], s'.sys.envs);
  }
}
