/** How long a RUNNABLE environment can be passed over in a run of the multi-CPU kernel. */
module SchedRuns {
  import opened Mmu
  import opened Syscalls
  import opened Smp
  import opened SmpRuns
  import opened Sched

  /** sched_yield at loop index i has passed over no RUNNABLE slot. */
  ghost predicate ScanOk(cpu: Cpu, envs: EnvTable) {
    cpu.pc.Scan? ==> Passed(Initial(cpu.cur), cpu.pc.i, envs)
  }

  ghost predicate Passed(initial: nat, i: nat, envs: EnvTable) {
    initial <= i && forall f: Slot :: envs[f].status == Runnable ==> i - initial <= Ahead(initial, f)
  }

  ghost predicate ScansOk(s: Smp) {
    forall c :: 0 <= c < |s.cpus| ==> ScanOk(s.cpus[c], s.sys.envs)
  }

  /** The slot at which the CPU will start to look when it next schedules. */
  function Start(cpu: Cpu): nat {
    if cpu.pc.Run1? || cpu.pc.Run2? then cpu.pc.e + 1 else Initial(cpu.cur)
  }

  // ---------------------------------------------------------------- one turn of the scan

  /** With something RUNNABLE a turn goes on, or takes the first RUNNABLE slot. */
  lemma Turn(cur: Option<Slot>, envs: EnvTable, i: nat, e: Slot)
    requires Passed(Initial(cur), i, envs) && envs[e].status == Runnable
    ensures var pc := ScanStep(cur, envs, i);
      if pc.Scan? then pc == Scan(i + 1) && Passed(Initial(cur), i + 1, envs)
      else pc == Run1(i % 1024) && First(envs, cur, i % 1024)
  {
    var initial := Initial(cur);
    NotRound(initial, i, e);
    if envs[i % 1024].status == Runnable {
      AheadIs(initial, i);
    } else {
      assert SomeRunnable(envs);
      Further(envs, initial, i);
    }
  }

  lemma NotRound(initial: nat, i: nat, e: Slot)
    requires initial <= 1024 && initial <= i && i - initial <= Ahead(initial, e)
    ensures !Stop(initial, i) && i < initial + 1024
  {
    assert Ahead(initial, e) < 1024;
  }

  lemma ScanOn(cpu: Cpu, envs: EnvTable)
    requires cpu.pc.Scan? && ScanOk(cpu, envs)
    ensures ScanOk(cpu.(pc := ScanStep(cpu.cur, envs, cpu.pc.i)), envs)
  {
    if SomeRunnable(envs) {
      var e: Slot :| envs[e].status == Runnable;
      Turn(cpu.cur, envs, cpu.pc.i, e);
    }
  }

  // ---------------------------------------------------------------- every step

  /** Sched_yield is entered at the slot after the current one's. */
  lemma ScanEntered(cpu: Cpu, c: nat, lock: Lock, sys: System, envs': EnvTable, a: Action)
    requires !cpu.pc.Scan?
    ensures ScanOk(Control(cpu, c, lock, sys, a).0, envs')
  {
    hide DispatchStep, ScanStep, Passed;
    if cpu.pc.Dispatch? {
      DispatchScan(cpu, sys, a);
    }
    FromStart(Initial(Control(cpu, c, lock, sys, a).0.cur), envs');
  }

  lemma FromStart(initial: nat, envs: EnvTable)
    ensures Passed(initial, initial, envs)
  {
  }

  lemma DispatchScan(cpu: Cpu, sys: System, a: Action)
    requires cpu.pc.Dispatch?
    ensures var cpu' := DispatchStep(cpu, sys, a);
      && (cpu'.pc.Scan? ==> cpu'.pc.i == Initial(cpu'.cur))
      && (cpu'.cur.Some? ==> Start(cpu') == Start(cpu))
  {
    hide Step, EventOf;
  }

  lemma NextScans(s: Smp, managed: set<nat>, c: nat, a: Action)
    requires Inv(s, managed) && ScansOk(s) && c < |s.cpus| && Permitted(s.cpus[c], s.sys.envs, a)
    ensures ScansOk(Next(s, c, a))
  {
    hide ScanOk, SystemOk, Control, EventOf, Perform, Permitted;
    var s' := Next(s, c, a);
    forall d | 0 <= d < |s'.cpus| ensures ScanOk(s'.cpus[d], s'.sys.envs) {
      if d != c {
        OtherScan(s, managed, c, a, d);
      } else if s.cpus[c].pc.Scan? {
        OwnScan(s, c, a);
      } else {
        ScanEntered(s.cpus[c], c, s.lock, s.sys, s'.sys.envs, a);
      }
    }
  }

  lemma OwnScan(s: Smp, c: nat, a: Action)
    requires c < |s.cpus| && s.cpus[c].pc.Scan? && ScanOk(s.cpus[c], s.sys.envs)
    ensures ScanOk(Next(s, c, a).cpus[c], Next(s, c, a).sys.envs)
    ensures Next(s, c, a).sys == s.sys && Next(s, c, a).cpus[c].cur == s.cpus[c].cur
    ensures Next(s, c, a).cpus[c].pc == ScanStep(s.cpus[c].cur, s.sys.envs, s.cpus[c].pc.i)
  {
    hide ScanOk, ScanStep;
    ScanOn(s.cpus[c], s.sys.envs);
  }

  /** While one CPU scans, the others do not change the environments. */
  lemma OtherScan(s: Smp, managed: set<nat>, c: nat, a: Action, d: nat)
    requires Inv(s, managed) && c < |s.cpus| && d < |s.cpus| && c != d && Permitted(s.cpus[c], s.sys.envs, a)
    requires ScanOk(s.cpus[d], s.sys.envs)
    ensures ScanOk(Next(s, c, a).cpus[d], Next(s, c, a).sys.envs)
  {
    hide SystemOk, Control, EventOf, Perform, Permitted, CpuOk, Apart, AllOwned, RecvOk, Passed;
    if s.cpus[d].pc.Scan? {
      OneHolder(s, d, c);
      SysEffect(s.sys, managed, s.cpus[c], a);
    }
  }

  lemma {:induction false} RunScans(s: Smp, managed: set<nat>, moves: seq<Move>)
    requires Inv(s, managed) && ScansOk(s) && PermittedRun(s, moves)
    ensures ScansOk(RunMoves(s, moves))
    decreases |moves|
  {
    hide Inv, Next, Permitted, ScansOk;
    if moves != [] {
      var before := moves[..|moves| - 1];
      var m := moves[|moves| - 1];
      RunScans(s, managed, before);
      RunKeepsInv(s, managed, before);
      if m.cpu < |s.cpus| {
        NextScans(RunMoves(s, before), managed, m.cpu, m.action);
      }
    }
  }

  // ---------------------------------------------------------------- waiting

  /** In every state of the run e is RUNNABLE and CPU c has a current environment. */
  ghost predicate Waits(s: Smp, moves: seq<Move>, c: nat, e: Slot)
    requires c < |s.cpus|
    decreases |moves|
  {
    var t := RunMoves(s, moves);
    && t.sys.envs[e].status == Runnable && t.cpus[c].cur.Some?
    && (moves == [] || Waits(s, moves[..|moves| - 1], c, e))
  }

  /** The last move of the run is a turn of CPU c that ends its scan. */
  predicate Ends(s: Smp, moves: seq<Move>, c: nat)
    requires c < |s.cpus| && moves != []
  {
    && moves[|moves| - 1].cpu == c
    && RunMoves(s, moves[..|moves| - 1]).cpus[c].pc.Scan? && !RunMoves(s, moves).cpus[c].pc.Scan?
  }

  /** How many scans CPU c completes in the run. */
  function Scans(s: Smp, moves: seq<Move>, c: nat): nat
    requires c < |s.cpus|
    decreases |moves|
  {
    if moves == [] then 0 else Scans(s, moves[..|moves| - 1], c) + if Ends(s, moves, c) then 1 else 0
  }

  /** One of them chooses e. */
  predicate Chooses(s: Smp, moves: seq<Move>, c: nat, e: Slot)
    requires c < |s.cpus|
    decreases |moves|
  {
    moves != [] &&
    (Chooses(s, moves[..|moves| - 1], c, e) || (Ends(s, moves, c) && RunMoves(s, moves).cpus[c].pc == Run1(e)))
  }

  /** A step that is not a turn of the scan leaves the start as it is, as long as there is a current environment. */
  lemma SameStart(cpu: Cpu, c: nat, lock: Lock, sys: System, a: Action)
    requires !cpu.pc.Scan? && cpu.cur.Some?
    requires Control(cpu, c, lock, sys, a).0.cur.Some?
    ensures Start(Control(cpu, c, lock, sys, a).0) == Start(cpu)
  {
    hide DispatchStep, ScanStep, Step, Busy, EventOf;
    if cpu.pc.Dispatch? {
      DispatchScan(cpu, sys, a);
    }
  }

  /** Choosing another environment brings the CPU strictly closer to e. */
  lemma Passes(cur: Slot, envs: EnvTable, i: nat, e: Slot)
    requires Passed(Initial(Some(cur)), i, envs) && envs[e].status == Runnable
    ensures var pc := ScanStep(Some(cur), envs, i);
      pc.Scan? || pc == Run1(e) || (pc.Run1? && Ahead(pc.e + 1, e) < Ahead(Initial(Some(cur)), e))
  {
    Turn(Some(cur), envs, i, e);
    var pc := ScanStep(Some(cur), envs, i);
    if pc.Run1? && pc.e != e {
      Closer(envs, cur, pc.e, e);
    }
  }

  /** One move of the run. */
  lemma Progress(s: Smp, d: nat, a: Action, c: nat, e: Slot)
    requires d < |s.cpus| && c < |s.cpus| && ScansOk(s)
    requires s.sys.envs[e].status == Runnable && s.cpus[c].cur.Some? && Next(s, d, a).cpus[c].cur.Some?
    ensures var cpu, cpu' := s.cpus[c], Next(s, d, a).cpus[c];
      if d == c && cpu.pc.Scan? && !cpu'.pc.Scan? then
        cpu'.pc == Run1(e) || Ahead(Start(cpu'), e) < Ahead(Start(cpu), e)
      else Start(cpu') == Start(cpu)
  {
    hide ScanStep, Passed;
    assert ScanOk(s.cpus[c], s.sys.envs);
    if d == c {
      if s.cpus[c].pc.Scan? {
        OwnScan(s, c, a);
        Passes(s.cpus[c].cur.value, s.sys.envs, s.cpus[c].pc.i, e);
      } else {
        SameStart(s.cpus[c], c, s.lock, s.sys, a);
      }
    }
  }

  lemma {:induction false} Nearer(s: Smp, managed: set<nat>, moves: seq<Move>, c: nat, e: Slot)
    requires Inv(s, managed) && ScansOk(s) && PermittedRun(s, moves) && c < |s.cpus|
    requires Waits(s, moves, c, e) && !Chooses(s, moves, c, e)
    ensures Ahead(Start(RunMoves(s, moves).cpus[c]), e) + Scans(s, moves, c) <= Ahead(Start(s.cpus[c]), e)
    decreases |moves|
  {
    hide Inv, Next, Permitted, ScansOk, Ahead, Start;
    if moves != [] {
      var before := moves[..|moves| - 1];
      var m := moves[|moves| - 1];
      Nearer(s, managed, before, c, e);
      RunScans(s, managed, before);
      if m.cpu < |s.cpus| {
        Progress(RunMoves(s, before), m.cpu, m.action, c, e);
      }
    }
  }

  /** An environment that stays RUNNABLE is chosen by any CPU that completes NENV scans, if that CPU always has a
      current environment to start from. */
  lemma BoundedWaiting(s: Smp, managed: set<nat>, moves: seq<Move>, c: nat, e: Slot)
    requires Inv(s, managed) && ScansOk(s) && PermittedRun(s, moves) && c < |s.cpus|
    requires Waits(s, moves, c, e) && Scans(s, moves, c) >= NENV
    ensures Chooses(s, moves, c, e)
  {
    if !Chooses(s, moves, c, e) {
      Nearer(s, managed, moves, c, e);
      assert false;
    }
  }

  /** Every state that a run from boot reaches is one that BoundedWaiting starts from. */
  lemma Reached(s: Smp, managed: set<nat>, moves: seq<Move>)
    requires Booted(s, managed) && PermittedRun(s, moves)
    ensures Inv(RunMoves(s, moves), managed) && ScansOk(RunMoves(s, moves))
  {
    BootInv(s, managed);
    assert ScansOk(s);
    hide Inv, ScansOk, RunMoves, PermittedRun;
    RunKeepsInv(s, managed, moves);
    RunScans(s, managed, moves);
  }
}
