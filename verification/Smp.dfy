/** The kernel on several CPUs: trap, the big lock, the scheduler and env_run as the steps each CPU takes, interleaved
    between any two steps. A step is one exchange on the lock word or cpu_status, or one store to the owner or curenv;
    the test whether this CPU holds the lock, and each event of module Syscalls on the shared state (like the whole of
    env_free, under the lock), is one step too. */
module Smp {
  import opened Mmu
  import opened Vm
  import opened Syscalls

  /** Why a CPU is taking the kernel lock. */
  datatype Why = FromUser | FromHalt | AtBoot

  datatype Pc =
    | User                    // user code
    | TrapIn                  // trap, before the exchange on cpu_status
    | CheckMode               // trap, before the test of the saved code segment
    | Acquire(why: Why)       // spin_lock, before the test that the lock is not already held here
    | Spin(why: Why)          // spin_lock, before an exchange on locked
    | Record(why: Why)        // spin_lock, before the owner is recorded
    | Zombie                  // trap, before the test for a zombie
    | Dispatch                // trap_dispatch
    | Scan(i: nat)            // sched_yield at loop index i
    | Run1(e: Slot)           // env_run, before the old environment is put back
    | Run2(e: Slot)           // env_run, before curenv is set
    | Run3(e: Slot)           // env_run, before the new status is set
    | HaltCheck               // sched_halt, before its loop
    | Halt1                   // sched_halt, before curenv is cleared
    | Halt2                   // sched_halt, before the exchange on cpu_status
    | Release1(halting: bool) // spin_unlock, before the owner is cleared
    | Release2(halting: bool) // spin_unlock, before the exchange on locked
    | Pop                     // env_pop_tf, with the lock released
    | Halted                  // the hlt loop
    | Monitor                 // the idle monitor
    | Panic

  /** One CPU; the last three fields count kernel entries and lock operations. */
  datatype Cpu = Cpu(pc: Pc, halted: bool, fromUser: bool, cur: Option<Slot>,
                     entries: nat, acquired: nat, released: nat)

  /** The kernel lock: the word that is exchanged, and the CPU recorded as its holder. */
  datatype Lock = Lock(locked: bool, owner: Option<nat>)

  datatype Smp = Smp(cpus: seq<Cpu>, lock: Lock, sys: System)

  /** What a step is free to choose: interrupts and stores in user mode, and in trap_dispatch a system call,
      a yield, or the end of the trap. */
  datatype Action = Interrupt | Write(va: nat, w: Word) | Call(ev: Event) | Yield | Return

  predicate IsCall(ev: Event) {
    !ev.UserStore? && !ev.Schedule? && !ev.Preempt? && !ev.Reap?
  }

  /** The slot after the current environment's, where sched_yield starts. */
  function Initial(cur: Option<Slot>): nat {
    if cur.None? then 0 else cur.value + 1
  }

  /** sched_yield's stop test. */
  predicate Stop(initial: nat, i: nat) {
    i >= 1024 && i % 1024 == initial
  }

  predicate Busy(envs: EnvTable) {
    exists e: Slot :: envs[e].status == Runnable || envs[e].status == Running || envs[e].status == Dying
  }

  // ---------------------------------------------------------------- steps

  /** The event of the shared state that a CPU's step performs, if any. */
  function EventOf(cpu: Cpu, envs: EnvTable, a: Action): Option<Event> {
    if cpu.pc.Run3? then Some(Schedule(cpu.pc.e))
    else if cpu.cur.None? then None
    else match cpu.pc
      case User => if a.Write? then Some(UserStore(cpu.cur.value, a.va, a.w)) else None
      case Zombie => if envs[cpu.cur.value].status == Dying then Some(Reap(cpu.cur.value)) else None
      case Dispatch => if a.Call? && IsCall(a.ev) && a.ev.cur == cpu.cur.value then Some(a.ev) else None
      case Run1(e) => if envs[cpu.cur.value].status == Running then Some(Preempt(cpu.cur.value)) else None
      case _ => None
  }

  /** sched_yield: one turn of its loop. */
  function ScanStep(cur: Option<Slot>, envs: EnvTable, i: nat): Pc {
    if Stop(Initial(cur), i) then
      if cur.Some? && envs[cur.value].status == Running && envs[(i - 1) % 1024].id == envs[cur.value].id
      then Run1(cur.value) else HaltCheck
    else if envs[i % 1024].status == Runnable then Run1(i % 1024)
    else Scan(i + 1)
  }

  /** trap_dispatch and the end of trap. */
  function DispatchStep(cpu: Cpu, sys: System, a: Action): Cpu {
    match a
    case Call(ev) =>
      if EventOf(cpu, sys.envs, a).None? || cpu.cur.None? then cpu else
      var (after, err) := Step(sys, ev);
      if after.envs[cpu.cur.value].status == Free then cpu.(cur := None, pc := Scan(0))
      else if ev.CallIpcRecv? && err == 0 then cpu.(pc := Scan(Initial(cpu.cur)))
      else cpu
    case Yield => cpu.(pc := Scan(Initial(cpu.cur)))
    case Return =>
      if cpu.cur.Some? && sys.envs[cpu.cur.value].status == Running then cpu.(pc := Run1(cpu.cur.value))
      else cpu.(pc := Scan(Initial(cpu.cur)))
    case _ => cpu
  }

  /** A step of CPU c as it changes the CPU itself and the lock. */
  function Control(cpu: Cpu, c: nat, lock: Lock, sys: System, a: Action): (Cpu, Lock) {
    match cpu.pc
    case User =>
      (if a.Interrupt? then cpu.(pc := TrapIn, fromUser := true, entries := cpu.entries + 1) else cpu, lock)
    case Halted =>
      (if a.Interrupt? then cpu.(pc := TrapIn, fromUser := false, entries := cpu.entries + 1) else cpu, lock)
    case TrapIn => (cpu.(halted := false, pc := if cpu.halted then Acquire(FromHalt) else CheckMode), lock)
    case CheckMode => (cpu.(pc := if cpu.fromUser then Acquire(FromUser) else Dispatch), lock)
    case Acquire(why) => (cpu.(pc := if lock.locked && lock.owner == Some(c) then Panic else Spin(why)), lock)
    case Spin(why) =>
      if lock.locked then (cpu, lock)
      else (cpu.(pc := Record(why), acquired := cpu.acquired + 1), lock.(locked := true))
    case Record(why) =>
      (cpu.(pc := match why case FromUser => Zombie case FromHalt => CheckMode case AtBoot => Scan(Initial(cpu.cur))),
       lock.(owner := Some(c)))
    case Zombie =>
      (if cpu.cur.None? then cpu.(pc := Panic)
       else if sys.envs[cpu.cur.value].status == Dying then cpu.(cur := None, pc := Scan(0))
       else cpu.(pc := Dispatch), lock)
    case Dispatch => (DispatchStep(cpu, sys, a), lock)
    case Scan(i) => (cpu.(pc := ScanStep(cpu.cur, sys.envs, i)), lock)
    case Run1(e) => (cpu.(pc := Run2(e)), lock)
    case Run2(e) => (cpu.(cur := Some(e), pc := Run3(e)), lock)
    case Run3(e) => (cpu.(pc := Release1(false)), lock)
    case HaltCheck => (cpu.(pc := if Busy(sys.envs) then Halt1 else Monitor), lock)
    case Halt1 => (cpu.(cur := None, pc := Halt2), lock)
    case Halt2 => (cpu.(halted := true, pc := Release1(true)), lock)
    case Release1(h) =>
      if lock.locked && lock.owner == Some(c) then (cpu.(pc := Release2(h)), lock.(owner := None))
         else (cpu.(pc := Panic), lock)
    case Release2(h) =>
      (cpu.(pc := if h then Halted else Pop, released := cpu.released + 1), lock.(locked := false))
    case Pop => (cpu.(pc := User), lock)
    case Monitor => (cpu, lock)
    case Panic => (cpu, lock)
  }

  function Perform(sys: System, ev: Option<Event>): System {
    if ev.None? then sys else Step(sys, ev.value).0
  }

  function Next(s: Smp, c: nat, a: Action): Smp
    requires c < |s.cpus|
  {
    var (cpu, lock) := Control(s.cpus[c], c, s.lock, s.sys, a);
    Smp(s.cpus[c := cpu], lock, Perform(s.sys, EventOf(s.cpus[c], s.sys.envs, a)))
  }

  // ---------------------------------------------------------------- the restricted alphabet

  /** sys_env_set_status is used on an environment that no CPU is running, and does not wake one that
      is receiving; an environment is destroyed once. */
  predicate Allowed(envs: EnvTable, ev: Event) {
    match ev
    case CallSetStatus(cur, envid, status) =>
      var to := EnvOf(envs, cur, envid, true);
      to.None? || (status != Runnable && status != NotRunnable) ||
      (&& (to.value == cur || envs[to.value].status == Runnable || envs[to.value].status == NotRunnable)
       && (status == Runnable ==> !envs[to.value].recving))
    case CallDestroy(cur, envid) =>
      var to := EnvOf(envs, cur, envid, true);
      to.None? || envs[to.value].status != Dying
    case _ => true
  }

  predicate Permitted(cpu: Cpu, envs: EnvTable, a: Action) {
    cpu.pc.Dispatch? && a.Call? ==> Allowed(envs, a.ev)
  }

  // ---------------------------------------------------------------- the invariant

  predicate Waiting(cpu: Cpu) {
    match cpu.pc
    case TrapIn => true
    case CheckMode => cpu.fromUser
    case Acquire(_) => true
    case Spin(_) => true
    case _ => false
  }

  /** Between taking the lock and giving it back. */
  predicate Holding(cpu: Cpu) {
    match cpu.pc
    case CheckMode => !cpu.fromUser
    case Record(_) => true
    case Zombie => true
    case Dispatch => true
    case Scan(_) => true
    case Run1(_) => true
    case Run2(_) => true
    case Run3(_) => true
    case HaltCheck => true
    case Halt1 => true
    case Halt2 => true
    case Release1(_) => true
    case Release2(_) => true
    case Monitor => true
    case _ => false
  }

  /** On the way from user mode to the zombie test, or on the way back to it. */
  predicate InUse(cpu: Cpu) {
    match cpu.pc
    case User => true
    case TrapIn => cpu.fromUser
    case CheckMode => cpu.fromUser
    case Acquire(why) => why == FromUser
    case Spin(why) => why == FromUser
    case Record(why) => why == FromUser
    case Zombie => true
    case Pop => true
    case _ => false
  }

  /** In trap_dispatch or the scheduler. */
  predicate Deciding(cpu: Cpu) {
    cpu.pc.Dispatch? || cpu.pc.Scan? || cpu.pc.Run1? || cpu.pc.Run2? || cpu.pc.HaltCheck? || cpu.pc.Halt1?
      || cpu.pc.Monitor?
  }

  predicate OnCpu(status: Status) {
    status == Running || status == Dying
  }

  /** What the current environment's status can be at each point. */
  predicate CurOk(cpu: Cpu, envs: EnvTable) {
    if InUse(cpu) then cpu.cur.Some? && OnCpu(envs[cpu.cur.value].status)
    else if Deciding(cpu) then
      && (cpu.cur.Some? ==> envs[cpu.cur.value].status != Dying && envs[cpu.cur.value].status != Free)
      && (cpu.pc.HaltCheck? || cpu.pc.Halt1? || cpu.pc.Monitor? || cpu.pc.Run2? ==>
            cpu.cur.Some? ==> envs[cpu.cur.value].status != Running)
      && (cpu.pc.Run1? ==> envs[cpu.pc.e].status == Runnable
                           || (cpu.cur == Some(cpu.pc.e) && envs[cpu.pc.e].status == Running))
      && (cpu.pc.Run2? ==> envs[cpu.pc.e].status == Runnable)
    else if cpu.pc.Run3? then cpu.cur == Some(cpu.pc.e) && envs[cpu.pc.e].status == Runnable
    else if (cpu.pc.Release1? || cpu.pc.Release2?) && !cpu.pc.halting then
      cpu.cur.Some? && envs[cpu.cur.value].status == Running
    else cpu.cur == None
  }

  predicate CpuOk(cpu: Cpu, envs: EnvTable) {
    && !cpu.pc.Panic?
    && CurOk(cpu, envs)
    && (cpu.pc.Acquire? || cpu.pc.Spin? || cpu.pc.Record? ==> cpu.pc.why != AtBoot ==>
         (cpu.fromUser <==> cpu.pc.why == FromUser))
    && (cpu.halted <==> cpu.pc.Halted? || (cpu.pc.TrapIn? && !cpu.fromUser)
                        || ((cpu.pc.Release1? || cpu.pc.Release2?) && cpu.pc.halting))
    && cpu.entries == cpu.acquired + (if Waiting(cpu) then 1 else 0)
    && cpu.acquired == cpu.released + (if Holding(cpu) then 1 else 0)
  }

  predicate Named(cpu: Cpu) {
    Holding(cpu) && !cpu.pc.Record? && !cpu.pc.Release2?
  }

  ghost predicate LockOk(s: Smp) {
    && (forall c, d :: 0 <= c < |s.cpus| && 0 <= d < |s.cpus| && Holding(s.cpus[c]) && Holding(s.cpus[d]) ==> c == d)
    && (s.lock.locked <==> exists c :: 0 <= c < |s.cpus| && Holding(s.cpus[c]))
    && (forall c: nat :: c < |s.cpus| ==> (s.lock.owner == Some(c) <==> Named(s.cpus[c])))
  }

  ghost predicate Apart(s: Smp) {
    forall c, d :: 0 <= c < d < |s.cpus| && s.cpus[c].cur.Some? ==> s.cpus[c].cur != s.cpus[d].cur
  }

  predicate Owned(s: Smp, e: Slot) {
    exists c :: 0 <= c < |s.cpus| && s.cpus[c].cur == Some(e)
  }

  ghost predicate AllOwned(s: Smp) {
    forall e: Slot :: OnCpu(s.sys.envs[e].status) ==> Owned(s, e)
  }

  /** A receiving environment is blocked. */
  ghost predicate RecvOk(envs: EnvTable) {
    forall e: Slot :: envs[e].recving && envs[e].status != Free ==> envs[e].status == NotRunnable
  }

  ghost predicate Inv(s: Smp, managed: set<nat>) {
    && SystemOk(s.sys, managed)
    && (forall c :: 0 <= c < |s.cpus| ==> CpuOk(s.cpus[c], s.sys.envs))
    && LockOk(s) && Apart(s) && AllOwned(s) && RecvOk(s.sys.envs)
  }
  // ---------------------------------------------------------------- what every step keeps

  /** Only the environment cur can get on or off a CPU. */
  ghost predicate OnlyMoves(envs: EnvTable, envs': EnvTable, cur: Slot) {
    forall e: Slot :: e != cur ==> (OnCpu(envs[e].status) <==> OnCpu(envs'[e].status))
  }

  lemma CallEffectAt(s: System, managed: set<nat>, ev: Event, e: Slot)
    requires SystemOk(s, managed) && IsCall(ev) && Allowed(s.envs, ev) && RecvOk(s.envs)
    requires s.envs[ev.cur].status != Dying && s.envs[ev.cur].status != Free
    ensures var env, env' := s.envs[e], Step(s, ev).0.envs[e];
      && (env'.recving && env'.status != Free ==> env'.status == NotRunnable)
      && (if e == ev.cur then env'.status != Dying else OnCpu(env.status) <==> OnCpu(env'.status))
  {
    hide SystemOk, Insert, Store, DropSpace, Alloc, MakeRoot, CanWalk, MayShare, Drop, LeafAt, NextId, SyscallPerm,
         UserPageAddress;
    SlotFacts(s, managed, e);
    assert s.envFree != [] ==> s.envFree[0] in s.envFree;
  }

  lemma CallEffect(s: System, managed: set<nat>, ev: Event)
    requires SystemOk(s, managed) && IsCall(ev) && Allowed(s.envs, ev) && RecvOk(s.envs)
    requires s.envs[ev.cur].status != Dying && s.envs[ev.cur].status != Free
    ensures var envs' := Step(s, ev).0.envs;
      OnlyMoves(s.envs, envs', ev.cur) && RecvOk(envs') && envs'[ev.cur].status != Dying
  {
    hide SystemOk, Step, Allowed;
    forall e: Slot {
      CallEffectAt(s, managed, ev, e);
    }
  }

  lemma SimpleEffect(s: System, ev: Event)
    requires !IsCall(ev) && RecvOk(s.envs)
    requires ev.Schedule? ==> !s.envs[ev.cur].recving
    ensures var envs' := Step(s, ev).0.envs;
      && OnlyMoves(s.envs, envs', ev.cur) && RecvOk(envs')
      && (ev.UserStore? ==> envs' == s.envs)
  {
    hide DropSpace, Store;
  }

  /** What a step does to the environments: only a lock holder changes them, and only its own
      current environment gets on or off a CPU. */
  lemma SysEffect(sys: System, managed: set<nat>, cpu: Cpu, a: Action)
    requires SystemOk(sys, managed) && RecvOk(sys.envs) && CpuOk(cpu, sys.envs) && Permitted(cpu, sys.envs, a)
    ensures var sys' := Perform(sys, EventOf(cpu, sys.envs, a));
      && SystemOk(sys', managed) && RecvOk(sys'.envs)
      && (!Holding(cpu) || cpu.cur.None? ==> sys'.envs == sys.envs)
      && (cpu.cur.Some? ==> OnlyMoves(sys.envs, sys'.envs, cpu.cur.value))
  {
    hide SystemOk, Allowed, Step;
    var ev := EventOf(cpu, sys.envs, a);
    if ev.Some? {
      StepKeeps(sys, managed, ev.value);
      if cpu.pc.Dispatch? {
        CallEffect(sys, managed, ev.value);
      } else {
        SimpleEffect(sys, ev.value);
      }
    }
  }

  // ---------------------------------------------------------------- a step of one CPU

  /** When the scan has come round, the slot just before is the current environment's own. */
  lemma StopAtCur(cur: Option<Slot>, i: nat)
    requires Stop(Initial(cur), i) && cur.Some?
    ensures (i - 1) % 1024 == cur.value
  {
  }

  lemma DispatchKeepsCpu(cpu: Cpu, c: nat, lock: Lock, sys: System, managed: set<nat>, a: Action)
    requires SystemOk(sys, managed) && RecvOk(sys.envs) && CpuOk(cpu, sys.envs) && Permitted(cpu, sys.envs, a)
    requires cpu.pc.Dispatch?
    ensures CpuOk(Control(cpu, c, lock, sys, a).0, Perform(sys, EventOf(cpu, sys.envs, a)).envs)
  {
    hide SystemOk, Step, Allowed;
    if EventOf(cpu, sys.envs, a).Some? {
      CallEffect(sys, managed, a.ev);
    }
  }

  lemma SchedKeepsCpu(cpu: Cpu, c: nat, lock: Lock, sys: System, a: Action)
    requires CpuOk(cpu, sys.envs) && cpu.pc.Scan?
    ensures CpuOk(Control(cpu, c, lock, sys, a).0, sys.envs) && EventOf(cpu, sys.envs, a) == None
  {
    if Stop(Initial(cpu.cur), cpu.pc.i) && cpu.cur.Some? {
      StopAtCur(cpu.cur, cpu.pc.i);
    }
  }

  lemma EventKeepsCpu(cpu: Cpu, c: nat, lock: Lock, sys: System, a: Action)
    requires CpuOk(cpu, sys.envs) && (cpu.pc.Zombie? || cpu.pc.Run1? || cpu.pc.Run3? || cpu.pc.User?)
    ensures CpuOk(Control(cpu, c, lock, sys, a).0, Perform(sys, EventOf(cpu, sys.envs, a)).envs)
  {
    hide DropSpace, Store, PageAlloc, PageMap, PageUnmap, Exofork, SetStatus, Destroy, IpcTrySend, IpcRecv;
  }

  lemma OtherKeepsCpu(cpu: Cpu, c: nat, lock: Lock, sys: System, a: Action)
    requires CpuOk(cpu, sys.envs) && (Holding(cpu) ==> lock.locked) && (lock.owner == Some(c) <==> Named(cpu))
    requires !(cpu.pc.Zombie? || cpu.pc.Run1? || cpu.pc.Run3? || cpu.pc.User? || cpu.pc.Dispatch? || cpu.pc.Scan?)
    ensures CpuOk(Control(cpu, c, lock, sys, a).0, sys.envs) && EventOf(cpu, sys.envs, a) == None
  {
    hide Step, DispatchStep, ScanStep, Busy, Initial, CpuOk, Control;
    if cpu.pc.Run2? || cpu.pc.HaltCheck? || cpu.pc.Halt1? || cpu.pc.Halt2? || cpu.pc.Release1? || cpu.pc.Release2? {
      LeavingKeepsCpu(cpu, c, lock, sys, a);
    } else {
      EnteringKeepsCpu(cpu, c, lock, sys, a);
    }
  }

  lemma LeavingKeepsCpu(cpu: Cpu, c: nat, lock: Lock, sys: System, a: Action)
    requires CpuOk(cpu, sys.envs) && (Holding(cpu) ==> lock.locked) && (lock.owner == Some(c) <==> Named(cpu))
    requires cpu.pc.Run2? || cpu.pc.HaltCheck? || cpu.pc.Halt1? || cpu.pc.Halt2? || cpu.pc.Release1? || cpu.pc.Release2?
    ensures CpuOk(Control(cpu, c, lock, sys, a).0, sys.envs)
  {
    hide Step, DispatchStep, ScanStep, Busy, Initial;
  }

  lemma EnteringKeepsCpu(cpu: Cpu, c: nat, lock: Lock, sys: System, a: Action)
    requires CpuOk(cpu, sys.envs) && (Holding(cpu) ==> lock.locked) && (lock.owner == Some(c) <==> Named(cpu))
    requires cpu.pc.TrapIn? || cpu.pc.CheckMode? || cpu.pc.Acquire? || cpu.pc.Spin? || cpu.pc.Record?
             || cpu.pc.Pop? || cpu.pc.Halted? || cpu.pc.Monitor? || cpu.pc.Panic?
    ensures CpuOk(Control(cpu, c, lock, sys, a).0, sys.envs)
  {
    hide Step, DispatchStep, ScanStep, Busy, Initial;
  }

  lemma StepKeepsCpu(cpu: Cpu, c: nat, lock: Lock, sys: System, managed: set<nat>, a: Action)
    requires SystemOk(sys, managed) && RecvOk(sys.envs) && CpuOk(cpu, sys.envs) && Permitted(cpu, sys.envs, a)
    requires (Holding(cpu) ==> lock.locked) && (lock.owner == Some(c) <==> Named(cpu))
    ensures CpuOk(Control(cpu, c, lock, sys, a).0, Perform(sys, EventOf(cpu, sys.envs, a)).envs)
  {
    hide SystemOk, CpuOk, Control, Step, EventOf, Permitted, Named, Holding;
    if cpu.pc.Dispatch? {
      DispatchKeepsCpu(cpu, c, lock, sys, managed, a);
    } else if cpu.pc.Scan? {
      SchedKeepsCpu(cpu, c, lock, sys, a);
    } else if cpu.pc.Zombie? || cpu.pc.Run1? || cpu.pc.Run3? || cpu.pc.User? {
      EventKeepsCpu(cpu, c, lock, sys, a);
    } else {
      OtherKeepsCpu(cpu, c, lock, sys, a);
    }
  }

  /** The lock word changes exactly as the CPU takes or gives back the lock, and the owner is
      only ever replaced by a CPU that holds it. */
  lemma LockStep(cpu: Cpu, c: nat, lock: Lock, sys: System, a: Action)
    requires CpuOk(cpu, sys.envs) && (Holding(cpu) ==> lock.locked) && (lock.owner == Some(c) <==> Named(cpu))
    ensures var (cpu', lock') := Control(cpu, c, lock, sys, a);
      && (Holding(cpu') <==> if Holding(cpu) then lock'.locked else !lock.locked && lock'.locked)
      && (!Holding(cpu) && !Holding(cpu') ==> lock'.locked == lock.locked)
      && (lock'.owner == Some(c) <==> Named(cpu'))
      && (lock'.owner == lock.owner || (Holding(cpu) && lock'.owner in {Some(c), None}))
  {
    hide Step, Stop, Busy, Initial, EventOf;
  }

  /** curenv changes only to None or, in env_run, to an environment that is on no CPU. */
  lemma CurStep(cpu: Cpu, c: nat, lock: Lock, sys: System, a: Action)
    requires CpuOk(cpu, sys.envs)
    ensures var cpu' := Control(cpu, c, lock, sys, a).0;
      || cpu'.cur == cpu.cur
      || (Holding(cpu) && cpu'.cur == None)
      || (Holding(cpu) && cpu'.cur.Some? && sys.envs[cpu'.cur.value].status == Runnable)
  {
    hide Step, ScanStep, Busy, Initial, EventOf;
  }

  // ---------------------------------------------------------------- a step of the whole machine

  lemma LockKeeps(s: Smp, managed: set<nat>, c: nat, a: Action)
    requires Inv(s, managed) && c < |s.cpus|
    ensures LockOk(Next(s, c, a))
  {
    hide SystemOk, Perform, Apart, AllOwned, RecvOk, EventOf, Holding, Named, CpuOk;
    var cpu := s.cpus[c];
    var (cpu', lock') := Control(cpu, c, s.lock, s.sys, a);
    var s' := Next(s, c, a);
    assert CpuOk(cpu, s.sys.envs);
    assert s.lock.owner == Some(c) <==> Named(cpu);
    LockStep(cpu, c, s.lock, s.sys, a);
    hide Control;
    NamedHolds();
    assert forall d :: 0 <= d < |s.cpus| && d != c ==> s'.cpus[d] == s.cpus[d];
    if Holding(cpu) {
      assert forall d :: 0 <= d < |s.cpus| && d != c ==> !Holding(s.cpus[d]);
      assert lock'.locked ==> Holding(s'.cpus[c]);
    } else if Holding(cpu') {
      assert Holding(s'.cpus[c]);
    } else if s.lock.locked {
      var h :| 0 <= h < |s.cpus| && Holding(s.cpus[h]);
      assert Holding(s'.cpus[h]);
    }
  }

  lemma NamedHolds()
    ensures forall cpu :: Named(cpu) ==> Holding(cpu)
  {
  }

  lemma OthersKeep(s: Smp, managed: set<nat>, c: nat, a: Action, d: nat)
    requires Inv(s, managed) && c < |s.cpus| && d < |s.cpus| && c != d && Permitted(s.cpus[c], s.sys.envs, a)
    ensures CpuOk(s.cpus[d], Next(s, c, a).sys.envs)
  {
    hide SystemOk, Perform, Control, AllOwned, RecvOk, Permitted, EventOf;
    assert CpuOk(s.cpus[d], s.sys.envs) && CpuOk(s.cpus[c], s.sys.envs);
    SysEffect(s.sys, managed, s.cpus[c], a);
    assert s.cpus[c].cur.Some? ==> s.cpus[c].cur != s.cpus[d].cur;
    if Holding(s.cpus[c]) {
      assert !Holding(s.cpus[d]);
    }
  }

  lemma ApartKeeps(s: Smp, managed: set<nat>, c: nat, a: Action)
    requires Inv(s, managed) && c < |s.cpus|
    ensures Apart(Next(s, c, a))
  {
    hide SystemOk, Perform, AllOwned, RecvOk, EventOf;
    var s' := Next(s, c, a);
    assert CpuOk(s.cpus[c], s.sys.envs);
    CurStep(s.cpus[c], c, s.lock, s.sys, a);
    hide Control;
    forall d | 0 <= d < |s.cpus| && d != c ensures s'.cpus[c].cur.Some? ==> s'.cpus[d].cur != s'.cpus[c].cur {
      assert CpuOk(s.cpus[d], s.sys.envs);
      assert s'.cpus[d] == s.cpus[d];
      assert Holding(s.cpus[c]) ==> !Holding(s.cpus[d]);
    }
  }

  lemma OwnedKeeps(s: Smp, managed: set<nat>, c: nat, a: Action, e: Slot)
    requires Inv(s, managed) && c < |s.cpus| && Permitted(s.cpus[c], s.sys.envs, a)
    requires OnCpu(Next(s, c, a).sys.envs[e].status)
    ensures Owned(Next(s, c, a), e)
  {
    hide SystemOk, Perform, Permitted, LockOk, Apart;
    var s' := Next(s, c, a);
    var cpu := s.cpus[c];
    assert CpuOk(cpu, s.sys.envs);
    SysEffect(s.sys, managed, cpu, a);
    if cpu.cur == Some(e) {
      CurLeaves(cpu, c, s.lock, s.sys, managed, a);
      assert s'.cpus[c].cur == Some(e);
    } else {
      hide EventOf, Control, CpuOk;
      var d :| 0 <= d < |s.cpus| && s.cpus[d].cur == Some(e);
      assert s'.cpus[d] == s.cpus[d];
    }
  }

  /** A CPU gives up its current environment only when that environment is on no CPU any more. */
  lemma CurLeaves(cpu: Cpu, c: nat, lock: Lock, sys: System, managed: set<nat>, a: Action)
    requires SystemOk(sys, managed) && RecvOk(sys.envs) && CpuOk(cpu, sys.envs) && Permitted(cpu, sys.envs, a)
    requires cpu.cur.Some?
    ensures Control(cpu, c, lock, sys, a).0.cur != cpu.cur ==>
            !OnCpu(Perform(sys, EventOf(cpu, sys.envs, a)).envs[cpu.cur.value].status)
  {
    hide SystemOk, Permitted, Stop, Busy, Initial, DropSpace, Store, PageAlloc, PageMap, PageUnmap, Exofork, SetStatus,
         Destroy, IpcTrySend, IpcRecv;
  }

  /** Every permitted step of any CPU keeps the invariant. */
  lemma NextKeeps(s: Smp, managed: set<nat>, c: nat, a: Action)
    requires Inv(s, managed) && c < |s.cpus| && Permitted(s.cpus[c], s.sys.envs, a)
    ensures Inv(Next(s, c, a), managed)
  {
    var s' := Next(s, c, a);
    assert CpuOk(s.cpus[c], s.sys.envs);
    assert Holding(s.cpus[c]) ==> s.lock.locked;
    assert s.lock.owner == Some(c) <==> Named(s.cpus[c]);
    LockKeeps(s, managed, c, a);
    ApartKeeps(s, managed, c, a);
    hide LockOk, Apart, Control, Perform, EventOf, Permitted, CpuOk, SystemOk, Holding, Named;
    StepKeepsCpu(s.cpus[c], c, s.lock, s.sys, managed, a);
    SysEffect(s.sys, managed, s.cpus[c], a);
    forall d: nat | d < |s.cpus| && d != c ensures CpuOk(s'.cpus[d], s'.sys.envs) {
      OthersKeep(s, managed, c, a, d);
    }
    forall e: Slot | OnCpu(s'.sys.envs[e].status) ensures Owned(s', e) {
      OwnedKeeps(s, managed, c, a, e);
    }
  }
}
