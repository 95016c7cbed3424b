/** Pipe-closed detection: dup and close of lib/fd.c, _pipeisclosed of lib/pipe.c and fork of lib/fork.c on one CPU,
    interleaved at every system call, for one pipe. */
module PipeClosed {
  datatype End = ReadEnd | WriteEnd

  function Other(x: End): End {
    if x == ReadEnd then WriteEnd else ReadEnd
  }

  const MAXFD: nat := 32

  /** File descriptor num of environment env. */
  datatype Fd = Fd(env: nat, num: nat)

  /** The system call an environment makes next. After a close it stops, or goes on with the dup that asked for it. */
  datatype Pc =
    | Idle
    | Close1(j: nat, dup: bool, i: nat)   // devpipe_close: unmap the descriptor page
    | Close2(j: nat, dup: bool, i: nat)   // devpipe_close: unmap the data page
    | Close3(j: nat, dup: bool, i: nat)   // fd_close: unmap the descriptor page again
    | Dup1(i: nat, j: nat)                // map the data page
    | Dup2(i: nat, j: nat)                // map the descriptor page
    | DupErr1(j: nat)                     // unmap the descriptor page
    | DupErr2(j: nat)                     // unmap the data page
    | Check1(j: nat)                      // _pipeisclosed: read env_runs
    | Check2(j: nat, n: nat)              // read the descriptor page's count
    | Check3(j: nat, n: nat, a: nat)      // read the data page's count
    | Check4(j: nat, n: nat, a: nat, b: nat) // read env_runs again
    | Found(j: nat, closed: bool)
    | ForkFd(child: nat, i: nat)          // fork: copy the page of descriptor i
    | ForkData(child: nat, i: nat)        // fork: copy the data page of descriptor i
    | ForkEnd(child: nat)                 // fork: make the child runnable
    | Unborn(parent: nat)                 // made by fork and not runnable yet
    | Panicked

  /** Which descriptor pages of the pipe are mapped where, where its data page is mapped, who runs, how often each
      environment has been scheduled, and what it does next. */
  datatype State = State(fds: map<Fd, End>, data: set<Fd>, running: nat, runs: map<nat, nat>, pcs: map<nat, Pc>)

  datatype Move =
    | Switch(env: nat)                       // the scheduler runs env
    | StartClose(j: nat) | StartDup(i: nat, j: nat) | StartCheck(j: nat)
    | Call(ok: bool)                         // the next system call or read; ok if the kernel has memory for it
    | StartFork(child: nat)
    | Kill(env: nat)                         // env_destroy, by itself or by the running environment

  function PcOf(s: State, e: nat): Pc {
    if e in s.pcs then s.pcs[e] else Idle
  }

  function RunsOf(s: State, e: nat): nat {
    if e in s.runs then s.runs[e] else 0
  }

  function FdRefs(s: State, x: End): set<Fd> {
    set k | k in s.fds && s.fds[k] == x
  }

  /** pageref of a descriptor page and of a data page; 0 if it is not mapped. */
  function FdCount(s: State, k: Fd): nat {
    if k in s.fds then |FdRefs(s, s.fds[k])| else 0
  }

  function DataCount(s: State, k: Fd): nat {
    if k in s.data then |s.data| else 0
  }

  function Goto(s: State, pc: Pc): State {
    s.(pcs := s.pcs[s.running := pc])
  }

  /** The descriptor pages after the running environment's next system call or read. */
  function StepFds(s: State, ok: bool): map<Fd, End> {
    var e := s.running;
    match PcOf(s, e)
    case Close1(j, dup, i) => s.fds - {Fd(e, j)}
    case Close3(j, dup, i) => s.fds - {Fd(e, j)}
    case Dup2(i, j) => if Fd(e, i) in s.fds && ok then s.fds[Fd(e, j) := s.fds[Fd(e, i)]] else s.fds
    case DupErr1(j) => s.fds - {Fd(e, j)}
    case ForkFd(c, i) => if Fd(e, i) in s.fds && ok then s.fds[Fd(c, i) := s.fds[Fd(e, i)]] else s.fds
    case _ => s.fds
  }

  function StepData(s: State, ok: bool): set<Fd> {
    var e := s.running;
    match PcOf(s, e)
    case Close2(j, dup, i) => s.data - {Fd(e, j)}
    case Dup1(i, j) => if Fd(e, i) in s.data && ok then s.data + {Fd(e, j)} else s.data
    case DupErr2(j) => s.data - {Fd(e, j)}
    case ForkData(c, i) => if Fd(e, i) in s.data && ok then s.data + {Fd(c, i)} else s.data
    case _ => s.data
  }

  function StepPc(s: State, ok: bool): Pc {
    var e := s.running;
    match PcOf(s, e)
    case Idle => Idle
    case Close1(j, dup, i) => Close2(j, dup, i)
    case Close2(j, dup, i) => Close3(j, dup, i)
    case Close3(j, dup, i) => if dup then Dup1(i, j) else Idle
    case Dup1(i, j) => if Fd(e, i) in s.data && !ok then DupErr1(j) else Dup2(i, j)
    case Dup2(i, j) => if Fd(e, i) in s.fds && ok then Idle else DupErr1(j)
    case DupErr1(j) => DupErr2(j)
    case DupErr2(j) => Idle
    case Check1(j) => Check2(j, RunsOf(s, e))
    case Check2(j, n) => Check3(j, n, FdCount(s, Fd(e, j)))
    case Check3(j, n, a) => Check4(j, n, a, DataCount(s, Fd(e, j)))
    case Check4(j, n, a, b) => if RunsOf(s, e) == n then Found(j, a == b) else Check1(j)
    case Found(j, closed) => Idle
    case ForkFd(c, i) =>
      if Fd(e, i) in s.fds && !ok then Panicked else if i + 1 < MAXFD then ForkFd(c, i + 1) else ForkData(c, 0)
    case ForkData(c, i) =>
      if Fd(e, i) in s.data && !ok then Panicked else if i + 1 < MAXFD then ForkData(c, i + 1) else ForkEnd(c)
    case ForkEnd(c) => if ok then Idle else Panicked
    case Unborn(p) => Unborn(p)
    case Panicked => Panicked
  }

  /** The last call of fork lets the child go. */
  function StepPcs(s: State, ok: bool): map<nat, Pc> {
    var pc := PcOf(s, s.running);
    if pc.ForkEnd? && ok then s.pcs[pc.child := Idle][s.running := Idle] else s.pcs[s.running := StepPc(s, ok)]
  }

  /** One system call or read of the running environment. */
  function Step(s: State, ok: bool): State {
    s.(fds := StepFds(s, ok), data := StepData(s, ok), pcs := StepPcs(s, ok))
  }

  /** What fork gets from sys_exofork: an environment that holds nothing. */
  predicate Fresh(s: State, c: nat) {
    PcOf(s, c).Idle? && (forall k :: k in s.fds ==> k.env != c) && (forall k :: k in s.data ==> k.env != c)
  }

  function Next(s: State, m: Move): State {
    var e := s.running;
    match m
    case Switch(f) => if PcOf(s, f).Unborn? then s else s.(running := f, runs := s.runs[f := RunsOf(s, f) + 1])
    case StartClose(j) => if PcOf(s, e).Idle? && Fd(e, j) in s.fds then Goto(s, Close1(j, false, 0)) else s
    case StartDup(i, j) =>
      if !PcOf(s, e).Idle? || Fd(e, i) !in s.fds || j >= MAXFD then s
      else if Fd(e, j) in s.fds then Goto(s, Close1(j, true, i)) else Goto(s, Dup1(i, j))
    case StartCheck(j) => if PcOf(s, e).Idle? && Fd(e, j) in s.fds then Goto(s, Check1(j)) else s
    case Call(ok) => Step(s, ok)
    case StartFork(c) =>
      if PcOf(s, e).Idle? && c != e && Fresh(s, c) then s.(pcs := s.pcs[c := Unborn(e)][e := ForkFd(c, 0)]) else s
    case Kill(f) =>
      if PcOf(s, f).Unborn? || (f != e && !PcOf(s, e).Idle?) then s else
      s.(fds := (map k | k in s.fds && k.env != f :: s.fds[k]), data := (set k | k in s.data && k.env != f),
         pcs := s.pcs[f := Idle])
  }

  // ---------------------------------------------------------------- the invariant

  /** A descriptor of the pipe is mapped only where the data page is mapped too, except in an environment that fork is
      still making. */
  ghost predicate Backed(s: State) {
    forall k :: k in s.fds ==> k in s.data || PcOf(s, k.env).Unborn?
  }

  /** Descriptors of the pipe without their data page. */
  function Torn(s: State): set<Fd> {
    set k | k in s.fds && k !in s.data
  }

  /** Data pages of the pipe without their descriptor. */
  function Loose(s: State): set<Fd> {
    set k | k in s.data && k !in s.fds
  }

  predicate Forking(pc: Pc) {
    pc.ForkFd? || pc.ForkData? || pc.ForkEnd?
  }

  /** Of e's descriptors c has those below i. */
  ghost predicate SameFds(s: State, e: nat, c: nat, i: nat) {
    forall n: nat ::
      && (Fd(c, n) in s.fds <==> n < i && Fd(e, n) in s.fds)
      && (Fd(c, n) in s.fds ==> s.fds[Fd(c, n)] == s.fds[Fd(e, n)])
  }

  ghost predicate SameData(s: State, e: nat, c: nat, i: nat) {
    forall n: nat :: Fd(c, n) in s.data <==> n < i && Fd(e, n) in s.data
  }

  /** What a half-finished operation has established. */
  ghost predicate PcOk(s: State, e: nat) {
    match PcOf(s, e)
    case Close1(j, dup, i) => j < MAXFD
    case Close2(j, dup, i) => j < MAXFD && Fd(e, j) !in s.fds
    case Close3(j, dup, i) => j < MAXFD
    case Dup1(i, j) => j < MAXFD && Fd(e, j) !in s.fds
    case Dup2(i, j) => j < MAXFD && (Fd(e, i) in s.fds ==> Fd(e, j) in s.data)
    case DupErr2(j) => Fd(e, j) !in s.fds
    case Check1(j) => Fd(e, j) in s.fds
    case Check2(j, n) => Fd(e, j) in s.fds && n <= RunsOf(s, e)
    case Check3(j, n, a) =>
      && Fd(e, j) in s.fds && n <= RunsOf(s, e)
      && (s.running == e && RunsOf(s, e) == n ==> a == FdCount(s, Fd(e, j)))
    case Check4(j, n, a, b) =>
      && Fd(e, j) in s.fds && n <= RunsOf(s, e)
      && (s.running == e && RunsOf(s, e) == n ==> a == FdCount(s, Fd(e, j)) && b == DataCount(s, Fd(e, j)))
    case ForkFd(c, i) => ChildOk(s, e, c) && i < MAXFD && SameFds(s, e, c, i) && SameData(s, e, c, 0)
    case ForkData(c, i) => ChildOk(s, e, c) && i < MAXFD && SameFds(s, e, c, MAXFD) && SameData(s, e, c, i)
    case ForkEnd(c) => ChildOk(s, e, c) && SameFds(s, e, c, MAXFD) && SameData(s, e, c, MAXFD)
    case _ => true
  }

  predicate ChildOk(s: State, e: nat, c: nat) {
    c != e && PcOf(s, c) == Unborn(e)
  }

  ghost predicate Numbered(s: State) {
    (forall k :: k in s.fds ==> k.num < MAXFD) && (forall k :: k in s.data ==> k.num < MAXFD)
  }

  ghost predicate Inv(s: State) {
    && Backed(s) && Numbered(s) && !PcOf(s, s.running).Unborn?
    && forall e: nat :: PcOk(s, e)
  }

  // ---------------------------------------------------------------- what the counts say

  /** The data page's count is the sum of the two descriptor pages' counts, with the loose data pages and without the
      torn descriptors. */
  lemma CountsAdd(s: State)
    ensures |s.data| + |Torn(s)| == |FdRefs(s, ReadEnd)| + |FdRefs(s, WriteEnd)| + |Loose(s)|
  {
    HoldersAdd(s);
    TornAdd(s.fds.Keys, s.data, Torn(s));
    TornAdd(s.data, s.fds.Keys, Loose(s));
    assert s.fds.Keys * s.data == s.data * s.fds.Keys;
  }

  lemma HoldersAdd(s: State)
    ensures |s.fds.Keys| == |FdRefs(s, ReadEnd)| + |FdRefs(s, WriteEnd)|
  {
    var r, w := FdRefs(s, ReadEnd), FdRefs(s, WriteEnd);
    assert r !! w && r + w == s.fds.Keys;
    assert |r + w| == |r| + |w|;
  }

  lemma TornAdd(a: set<Fd>, b: set<Fd>, rest: set<Fd>)
    requires forall k :: k in rest <==> k in a && k !in b
    ensures |a| == |a * b| + |rest|
  {
    assert a * b !! rest && a * b + rest == a;
    assert |a * b + rest| == |a * b| + |rest|;
  }

  /** The two counts that _pipeisclosed compares are equal exactly when there are as many torn descriptors as holders of
      the other end and loose data pages together. */
  lemma EqualExactly(s: State, k: Fd)
    requires k in s.fds && k in s.data
    ensures FdCount(s, k) == DataCount(s, k) <==> |Torn(s)| == |FdRefs(s, Other(s.fds[k]))| + |Loose(s)|
  {
    CountsAdd(s);
  }

  // ---------------------------------------------------------------- every move keeps it

  /** Nothing has changed in what e has mapped. */
  ghost predicate SameAt(s: State, s': State, e: nat) {
    forall j: nat ::
      && (Fd(e, j) in s'.fds <==> Fd(e, j) in s.fds)
      && (Fd(e, j) in s.fds && Fd(e, j) in s'.fds ==> s'.fds[Fd(e, j)] == s.fds[Fd(e, j)])
      && (Fd(e, j) in s'.data <==> Fd(e, j) in s.data)
  }

  /** Another environment's half-finished operation does not notice a step of the running one. */
  lemma OtherUntouched(s: State, s': State, e: nat)
    requires PcOk(s, e) && e != s'.running && PcOf(s', e) == PcOf(s, e) && RunsOf(s', e) == RunsOf(s, e)
    requires SameAt(s, s', e)
    requires Forking(PcOf(s, e)) ==> var c := PcOf(s, e).child; SameAt(s, s', c) && PcOf(s', c) == PcOf(s, c)
    ensures PcOk(s', e)
  {
  }

  /** Environments the running one's next step leaves alone. */
  predicate Apart(s: State, e: nat) {
    e != s.running && (Forking(PcOf(s, s.running)) ==> e != PcOf(s, s.running).child)
  }

  lemma StepFrame(s: State, ok: bool, e: nat)
    requires Apart(s, e)
    ensures var s' := Step(s, ok);
      && s'.running == s.running && PcOf(s', e) == PcOf(s, e) && RunsOf(s', e) == RunsOf(s, e) && SameAt(s, s', e)
  {
    hide FdCount, DataCount, StepPc;
  }

  lemma StepBacked(s: State, ok: bool)
    requires Inv(s)
    ensures Backed(Step(s, ok)) && Numbered(Step(s, ok))
  {
    hide FdCount, DataCount;
    assert PcOk(s, s.running);
  }

  lemma StepSelf(s: State, ok: bool)
    requires Inv(s)
    ensures PcOk(Step(s, ok), s.running) && !PcOf(Step(s, ok), s.running).Unborn?
  {
    assert PcOk(s, s.running);
    if Forking(PcOf(s, s.running)) {
      StepFork(s, ok);
    } else {
      StepCheck(s, ok);
    }
  }

  lemma StepFork(s: State, ok: bool)
    requires Inv(s) && PcOk(s, s.running) && Forking(PcOf(s, s.running))
    ensures PcOk(Step(s, ok), s.running) && !PcOf(Step(s, ok), s.running).Unborn?
  {
    hide FdCount, DataCount, Backed, Numbered;
  }

  lemma StepCheck(s: State, ok: bool)
    requires Inv(s) && PcOk(s, s.running) && !Forking(PcOf(s, s.running))
    ensures PcOk(Step(s, ok), s.running) && !PcOf(Step(s, ok), s.running).Unborn?
  {
    hide SameFds, SameData;
  }

  lemma StepKeeps(s: State, ok: bool)
    requires Inv(s)
    ensures Inv(Step(s, ok))
  {
    var s' := Step(s, ok);
    StepBacked(s, ok);
    StepSelf(s, ok);
    forall e: nat ensures PcOk(s', e) {
      if e != s.running {
        StepOther(s, ok, e);
      }
    }
  }

  lemma StepOther(s: State, ok: bool, e: nat)
    requires Inv(s) && e != s.running
    ensures PcOk(Step(s, ok), e)
  {
    assert PcOk(s, e) && PcOk(s, s.running);
    if Apart(s, e) {
      StepFrame(s, ok, e);
      if Forking(PcOf(s, e)) {
        StepFrame(s, ok, PcOf(s, e).child);
      }
      hide Step, SameAt;
      OtherUntouched(s, Step(s, ok), e);
    } else {
      hide StepFds, StepData;
    }
  }

  lemma SwitchKeeps(s: State, f: nat)
    requires Inv(s)
    ensures Inv(Next(s, Switch(f)))
  {
    forall e: nat ensures PcOk(Next(s, Switch(f)), e) {
      assert PcOk(s, e);
    }
  }

  lemma ForkKeeps(s: State, child: nat)
    requires Inv(s)
    ensures Inv(Next(s, StartFork(child)))
  {
    var s' := Next(s, StartFork(child));
    if s' != s {
      forall e: nat ensures PcOk(s', e) {
        assert PcOk(s, e);
        if e != s.running && e != child {
          OtherUntouched(s, s', e);
        }
      }
    }
  }

  lemma KillKeeps(s: State, f: nat)
    requires Inv(s)
    ensures Inv(Next(s, Kill(f)))
  {
    var s' := Next(s, Kill(f));
    if s' != s {
      forall e: nat ensures PcOk(s', e) {
        assert PcOk(s, e);
        if e != f && e != s.running {
          OtherUntouched(s, s', e);
        }
      }
    }
  }

  lemma StartKeeps(s: State, m: Move)
    requires Inv(s) && (m.StartClose? || m.StartDup? || m.StartCheck?)
    ensures Inv(Next(s, m))
  {
    var s' := Next(s, m);
    if s' != s {
      StartSelf(s, m);
      hide PcOk, Next, Backed, Numbered;
      forall e: nat ensures PcOk(s', e) {
        if e != s.running {
          OtherUntouched(s, s', e);
        }
      }
    }
  }

  /** Starting an operation maps nothing and says what it is going to do. */
  lemma StartSelf(s: State, m: Move)
    requires Inv(s) && (m.StartClose? || m.StartDup? || m.StartCheck?) && Next(s, m) != s
    ensures var s' := Next(s, m);
      && s'.fds == s.fds && s'.data == s.data && s'.running == s.running && s'.runs == s.runs
      && (forall e: nat :: e != s.running ==> PcOf(s', e) == PcOf(s, e))
      && PcOk(s', s.running) && !PcOf(s, s.running).Unborn? && !PcOf(s', s.running).Unborn?
      && Backed(s') && Numbered(s')
  {
    hide FdCount, DataCount, SameFds, SameData;
  }

  lemma NextKeeps(s: State, m: Move)
    requires Inv(s)
    ensures Inv(Next(s, m))
  {
    match m
    case Switch(f) => SwitchKeeps(s, f);
    case Call(ok) => StepKeeps(s, ok);
    case StartFork(child) => ForkKeeps(s, child);
    case Kill(f) => KillKeeps(s, f);
    case _ => StartKeeps(s, m);
  }

  // ---------------------------------------------------------------- runs

  function Run(s: State, moves: seq<Move>): State
    decreases |moves|
  {
    if moves == [] then s else Next(Run(s, moves[..|moves| - 1]), moves[|moves| - 1])
  }

  lemma {:induction false} RunKeeps(s: State, moves: seq<Move>)
    requires Inv(s)
    ensures Inv(Run(s, moves))
    decreases |moves|
  {
    hide Inv, Next;
    if moves != [] {
      RunKeeps(s, moves[..|moves| - 1]);
      NextKeeps(Run(s, moves[..|moves| - 1]), moves[|moves| - 1]);
    }
  }

  /** pipe has just returned: one environment holds both ends. */
  function Created(e: nat, i: nat, j: nat): State
    requires i != j
  {
    State(map[Fd(e, i) := ReadEnd, Fd(e, j) := WriteEnd], {Fd(e, i), Fd(e, j)}, e, map[], map[])
  }

  /** Every run since the pipe was created. A descriptor without its data page belongs to an environment that a fork is
      still making, or has left half made. _pipeisclosed returns 1 exactly when there are as many of those as there are
      holders of the other end and loose data pages; so with none the other end has no holder. */
  lemma ClosedSound(e: nat, i: nat, j: nat, moves: seq<Move>, ok: bool)
    requires i != j && i < MAXFD && j < MAXFD
    ensures var s := Run(Created(e, i, j), moves);
      && (forall k :: k in Torn(s) ==> PcOf(s, k.env).Unborn?)
      && (PcOf(s, s.running).Check4? ==>
            var k := Fd(s.running, PcOf(s, s.running).j);
            && k in s.fds && k in s.data
            && (RunsOf(s, s.running) == PcOf(s, s.running).n ==>
                  (PcOf(Step(s, ok), s.running) == Found(k.num, true) <==>
                   |Torn(s)| == |FdRefs(s, Other(s.fds[k]))| + |Loose(s)|))
            && (PcOf(Step(s, ok), s.running) == Found(k.num, true) && Torn(s) == {} ==>
                  FdRefs(s, Other(s.fds[k])) == {}))
  {
    var s := Run(Created(e, i, j), moves);
    assert Inv(Created(e, i, j));
    RunKeeps(Created(e, i, j), moves);
    assert PcOk(s, s.running);
    if PcOf(s, s.running).Check4? {
      EqualExactly(s, Fd(s.running, PcOf(s, s.running).j));
    }
  }

  /** An end that nobody holds stays that way, so the answer stays right. */
  lemma {:induction false} StaysClosed(s: State, x: End, moves: seq<Move>)
    requires FdRefs(s, x) == {}
    ensures FdRefs(Run(s, moves), x) == {}
    decreases |moves|
  {
    if moves != [] {
      StaysClosed(s, x, moves[..|moves| - 1]);
      NobodyAgain(Run(s, moves[..|moves| - 1]), x, moves[|moves| - 1]);
    }
  }

  lemma NobodyAgain(s: State, x: End, m: Move)
    requires FdRefs(s, x) == {}
    ensures FdRefs(Next(s, m), x) == {}
  {
    hide FdCount, DataCount;
    assert forall k :: k in s.fds && s.fds[k] == x ==> k in FdRefs(s, x);
    forall k | k in Next(s, m).fds ensures Next(s, m).fds[k] != x {
    }
  }


  lemma {:induction false} RunAppend(s: State, a: seq<Move>, b: seq<Move>)
    ensures Run(s, a + b) == Run(Run(s, a), b)
    decreases |b|
  {
    hide Next;
    if b == [] {
      assert a + b == a;
    } else {
      assert (a + b)[..|a + b| - 1] == a + b[..|b| - 1];
      RunAppend(s, a, b[..|b| - 1]);
    }
  }

  /** Of any run since the pipe was created: if a check that met no torn descriptor has answered 1, then nobody holds
      the other end when the run is over. */
  lemma AnswerLasts(e: nat, i: nat, j: nat, before: seq<Move>, ok: bool, after: seq<Move>)
    requires i != j && i < MAXFD && j < MAXFD
    ensures var s := Run(Created(e, i, j), before);
      PcOf(s, s.running).Check4? && Torn(s) == {} ==>
        var k := Fd(s.running, PcOf(s, s.running).j);
        && k in s.fds
        && (PcOf(Step(s, ok), s.running) == Found(k.num, true) ==>
              FdRefs(Run(Created(e, i, j), before + [Call(ok)] + after), Other(s.fds[k])) == {})
  {
    var s := Run(Created(e, i, j), before);
    ClosedSound(e, i, j, before, ok);
    RunAppend(Created(e, i, j), before, [Call(ok)] + after);
    assert before + [Call(ok)] + after == before + ([Call(ok)] + after);
    if PcOf(s, s.running).Check4? && PcOf(Step(s, ok), s.running) == Found(PcOf(s, s.running).j, true)
       && Torn(s) == {} {
      StaysClosed(s, Other(s.fds[Fd(s.running, PcOf(s, s.running).j)]), [Call(ok)] + after);
    }
  }

  /** Whatever happens between its system calls, a fork that comes to its end has given the child exactly the parent's
      descriptors, each with its data page. */
  lemma ForkWhole(e: nat, i: nat, j: nat, moves: seq<Move>)
    requires i != j && i < MAXFD && j < MAXFD
    ensures var s := Run(Created(e, i, j), moves);
      PcOf(s, s.running).ForkEnd? ==>
        var c, s' := PcOf(s, s.running).child, Step(s, true);
        && c != s.running && PcOf(s', c).Idle? && PcOf(s', s.running).Idle?
        && SameFds(s', s.running, c, MAXFD) && SameData(s', s.running, c, MAXFD) && Numbered(s')
        && (forall k :: k in Torn(s') ==> k.env != c)
  {
    var s := Run(Created(e, i, j), moves);
    assert Inv(Created(e, i, j));
    RunKeeps(Created(e, i, j), moves);
    assert PcOk(s, s.running);
    if PcOf(s, s.running).ForkEnd? {
      StepKeeps(s, true);
    }
  }

  // ---------------------------------------------------------------- a wrong answer

  function Calls(n: nat): seq<Move> {
    if n == 0 then [] else Calls(n - 1) + [Call(true)]
  }

  /** The descriptor pages when the running environment's fork of c has copied those below i. */
  function CopyFds(s: State, c: nat, i: nat): map<Fd, End> {
    if i == 0 then s.fds
    else if Fd(s.running, i - 1) !in s.fds then CopyFds(s, c, i - 1)
    else CopyFds(s, c, i - 1)[Fd(c, i - 1) := s.fds[Fd(s.running, i - 1)]]
  }

  function CopyData(s: State, c: nat, i: nat): set<Fd> {
    if i == 0 then s.data
    else if Fd(s.running, i - 1) !in s.data then CopyData(s, c, i - 1)
    else CopyData(s, c, i - 1) + {Fd(c, i - 1)}
  }

  lemma {:induction false} CopyFdsKeeps(s: State, c: nat, i: nat, n: nat)
    requires c != s.running
    ensures Fd(s.running, n) in CopyFds(s, c, i) <==> Fd(s.running, n) in s.fds
    ensures Fd(s.running, n) in s.fds ==> CopyFds(s, c, i)[Fd(s.running, n)] == s.fds[Fd(s.running, n)]
  {
    if i > 0 {
      CopyFdsKeeps(s, c, i - 1, n);
    }
  }

  lemma {:induction false} CopyDataKeeps(s: State, c: nat, i: nat, n: nat)
    requires c != s.running
    ensures Fd(s.running, n) in CopyData(s, c, i) <==> Fd(s.running, n) in s.data
  {
    if i > 0 {
      CopyDataKeeps(s, c, i - 1, n);
    }
  }

  /** Halfway through the fork of c. */
  function Half(s: State, c: nat, i: nat, d: nat, pc: Pc): State {
    s.(fds := CopyFds(s, c, i), data := CopyData(s, c, d), pcs := s.pcs[c := Unborn(s.running)][s.running := pc])
  }

  lemma HalfFd(s: State, c: nat, i: nat)
    requires c != s.running && i < MAXFD
    ensures Next(Half(s, c, i, 0, ForkFd(c, i)), Call(true)) ==
            Half(s, c, i + 1, 0, if i + 1 < MAXFD then ForkFd(c, i + 1) else ForkData(c, 0))
  {
    hide FdCount, DataCount, RunsOf;
    CopyFdsKeeps(s, c, i, i);
    var h := Half(s, c, i, 0, ForkFd(c, i));
    assert PcOf(h, s.running) == ForkFd(c, i);
    var pc := if i + 1 < MAXFD then ForkFd(c, i + 1) else ForkData(c, 0);
    assert h.pcs[s.running := pc] == s.pcs[c := Unborn(s.running)][s.running := pc];
  }

  lemma HalfData(s: State, c: nat, i: nat)
    requires c != s.running && i < MAXFD
    ensures Next(Half(s, c, MAXFD, i, ForkData(c, i)), Call(true)) ==
            Half(s, c, MAXFD, i + 1, if i + 1 < MAXFD then ForkData(c, i + 1) else ForkEnd(c))
  {
    hide FdCount, DataCount, RunsOf, CopyFds;
    CopyDataKeeps(s, c, i, i);
    var h := Half(s, c, MAXFD, i, ForkData(c, i));
    assert PcOf(h, s.running) == ForkData(c, i);
    var pc := if i + 1 < MAXFD then ForkData(c, i + 1) else ForkEnd(c);
    assert h.pcs[s.running := pc] == s.pcs[c := Unborn(s.running)][s.running := pc];
  }

  lemma HalfEnd(s: State, c: nat)
    requires c != s.running
    ensures Next(Half(s, c, MAXFD, MAXFD, ForkEnd(c)), Call(true)) ==
            s.(fds := CopyFds(s, c, MAXFD), data := CopyData(s, c, MAXFD), pcs := s.pcs[c := Idle][s.running := Idle])
  {
    hide FdCount, DataCount, RunsOf, CopyFds, CopyData;
    var h := Half(s, c, MAXFD, MAXFD, ForkEnd(c));
    assert PcOf(h, s.running) == ForkEnd(c);
    assert h.pcs[c := Idle][s.running := Idle] == s.pcs[c := Idle][s.running := Idle];
  }

  lemma RunMore(s: State, n: nat)
    requires n > 0
    ensures Run(s, Calls(n)) == Next(Run(s, Calls(n - 1)), Call(true))
  {
    hide Next;
    assert Calls(n)[..|Calls(n)| - 1] == Calls(n - 1);
  }

  lemma RunNone(s: State)
    ensures Run(s, Calls(0)) == s
  {
  }

  lemma RunOne(s: State, m: Move)
    ensures Run(s, [m]) == Next(s, m)
  {
    hide Next;
    assert [m][..0] == [];
  }

  lemma {:induction false} FdPhase(s: State, c: nat, i: nat)
    requires c != s.running && i <= MAXFD
    ensures Run(Half(s, c, 0, 0, ForkFd(c, 0)), Calls(i)) ==
            Half(s, c, i, 0, if i < MAXFD then ForkFd(c, i) else ForkData(c, 0))
  {
    hide Next, Half, CopyFds, CopyData, Run, Calls;
    if i == 0 {
      RunNone(Half(s, c, 0, 0, ForkFd(c, 0)));
    } else {
      FdPhase(s, c, i - 1);
      RunMore(Half(s, c, 0, 0, ForkFd(c, 0)), i);
      HalfFd(s, c, i - 1);
    }
  }

  lemma {:induction false} DataPhase(s: State, c: nat, i: nat)
    requires c != s.running && i <= MAXFD
    ensures Run(Half(s, c, MAXFD, 0, ForkData(c, 0)), Calls(i)) ==
            Half(s, c, MAXFD, i, if i < MAXFD then ForkData(c, i) else ForkEnd(c))
  {
    hide Next, Half, CopyFds, CopyData, Run, Calls;
    if i == 0 {
      RunNone(Half(s, c, MAXFD, 0, ForkData(c, 0)));
    } else {
      DataPhase(s, c, i - 1);
      RunMore(Half(s, c, MAXFD, 0, ForkData(c, 0)), i);
      HalfData(s, c, i - 1);
    }
  }

  function ForkMoves(c: nat): seq<Move> {
    [StartFork(c)] + Calls(MAXFD) + Calls(MAXFD) + [Call(true)]
  }

  /** A fork that nobody interrupts. */
  lemma ForkAlone(s: State, c: nat)
    requires PcOf(s, s.running).Idle? && c != s.running && Fresh(s, c)
    ensures Run(s, ForkMoves(c)) ==
            s.(fds := CopyFds(s, c, MAXFD), data := CopyData(s, c, MAXFD), pcs := s.pcs[c := Idle][s.running := Idle])
  {
    var start, calls := [StartFork(c)], Calls(MAXFD);
    assert Next(s, StartFork(c)) == Half(s, c, 0, 0, ForkFd(c, 0));
    hide Next, Half, CopyFds, CopyData, Calls, Run;
    RunAppend(s, start + calls + calls, [Call(true)]);
    RunAppend(s, start + calls, calls);
    RunAppend(s, start, calls);
    RunOne(s, StartFork(c));
    FdPhase(s, c, MAXFD);
    DataPhase(s, c, MAXFD);
    HalfEnd(s, c);
    RunOne(Half(s, c, MAXFD, MAXFD, ForkEnd(c)), Call(true));
  }

  /** Environment 0 makes a pipe and forks 1, which closes its write end. While 0 forks 2 and has copied descriptor 0
      but not its data page, 1 asks whether the pipe is closed. */
  function WrongRun(): seq<Move> {
    ForkMoves(1)
    + [Switch(1), StartClose(1), Call(true), Call(true), Call(true)]
    + [Switch(0), StartFork(2), Call(true), Switch(1), StartCheck(0)]
    + [Call(true), Call(true), Call(true), Call(true)]
  }

  /** It is told yes, and environment 0 holds the write end. */
  lemma WrongAnswer()
    ensures var s := Run(Created(0, 0, 1), WrongRun());
      && s.running == 1 && PcOf(s, 1) == Found(0, true) && Fd(1, 0) in s.fds && s.fds[Fd(1, 0)] == ReadEnd
      && FdRefs(s, WriteEnd) == {Fd(0, 1)}
  {
    hide Next, Run, ForkMoves, FdRefs;
    var s0 := Created(0, 0, 1);
    var a := [Switch(1), StartClose(1), Call(true), Call(true), Call(true)];
    var b := [Switch(0), StartFork(2), Call(true), Switch(1), StartCheck(0)];
    var c := [Call(true), Call(true), Call(true), Call(true)];
    RunAppend(s0, ForkMoves(1) + a + b, c);
    RunAppend(s0, ForkMoves(1) + a, b);
    RunAppend(s0, ForkMoves(1), a);
    Forked();
    var s1 := Run(s0, ForkMoves(1));
    ClosesWriteEnd(s1);
    ForksAgain(Run(s1, a));
    Asks(Run(Run(s1, a), b));
  }

  function FourFds(): map<Fd, End> {
    map[Fd(0, 0) := ReadEnd, Fd(0, 1) := WriteEnd, Fd(1, 0) := ReadEnd, Fd(1, 1) := WriteEnd]
  }

  function ThreeFds(): map<Fd, End> {
    map[Fd(0, 0) := ReadEnd, Fd(0, 1) := WriteEnd, Fd(1, 0) := ReadEnd]
  }

  /** Nobody is in the middle of anything, and the pipe is mapped as said. */
  ghost predicate Quiet(s: State, fds: map<Fd, End>) {
    s.fds == fds && s.data == fds.Keys && forall e: nat :: PcOf(s, e).Idle?
  }

  lemma {:induction false} CopyTwo(i: nat)
    requires i >= 2
    ensures CopyFds(Created(0, 0, 1), 1, i) == FourFds() && CopyData(Created(0, 0, 1), 1, i) == FourFds().Keys
  {
    var s := Created(0, 0, 1);
    if i == 2 {
      assert CopyFds(s, 1, 1) == s.fds[Fd(1, 0) := ReadEnd];
      assert CopyData(s, 1, 1) == s.data + {Fd(1, 0)};
    } else {
      CopyTwo(i - 1);
      assert Fd(0, i - 1) !in s.fds && Fd(0, i - 1) !in s.data;
    }
  }

  lemma Forked()
    ensures var s := Run(Created(0, 0, 1), ForkMoves(1)); Quiet(s, FourFds()) && s.running == 0
  {
    var s := Created(0, 0, 1);
    ForkAlone(s, 1);
    CopyTwo(MAXFD);
  }

  lemma RunThree(s: State, a: Move, b: Move, c: Move)
    ensures Run(s, [a, b, c]) == Next(Next(Next(s, a), b), c)
  {
    hide Next;
    assert [a, b, c] == [a] + [b] + [c];
    RunAppend(s, [a] + [b], [c]);
    RunAppend(s, [a], [b]);
    RunOne(s, a);
    RunOne(Next(s, a), b);
    RunOne(Next(Next(s, a), b), c);
  }

  lemma RunFour(s: State, a: Move, b: Move, c: Move, d: Move)
    ensures Run(s, [a, b, c, d]) == Next(Next(Next(Next(s, a), b), c), d)
  {
    hide Next, Run;
    assert [a, b, c, d] == [a, b, c] + [d];
    RunAppend(s, [a, b, c], [d]);
    RunThree(s, a, b, c);
    RunOne(Next(Next(Next(s, a), b), c), d);
  }

  lemma RunFive(s: State, a: Move, b: Move, c: Move, d: Move, e: Move)
    ensures Run(s, [a, b, c, d, e]) == Next(Next(Next(Next(Next(s, a), b), c), d), e)
  {
    hide Next, Run;
    assert [a, b, c, d, e] == [a, b, c, d] + [e];
    RunAppend(s, [a, b, c, d], [e]);
    RunFour(s, a, b, c, d);
    RunOne(Next(Next(Next(Next(s, a), b), c), d), e);
  }

  lemma ClosesWriteEnd(s: State)
    requires Quiet(s, FourFds())
    ensures var t := Run(s, [Switch(1), StartClose(1), Call(true), Call(true), Call(true)]); Quiet(t, ThreeFds())
  {
    hide Run, FdCount, DataCount;
    RunFive(s, Switch(1), StartClose(1), Call(true), Call(true), Call(true));
    var t := Next(s, Switch(1));
    CloseAlone(t, 1);
    var u := Next(Next(Next(Next(t, StartClose(1)), Call(true)), Call(true)), Call(true));
    assert FourFds() - {Fd(1, 1)} == ThreeFds() && FourFds().Keys - {Fd(1, 1)} == ThreeFds().Keys;
    hide Next;
    forall e: nat ensures PcOf(u, e).Idle? {
      assert PcOf(s, e).Idle?;
    }
  }

  /** A close that nobody interrupts. */
  lemma CloseAlone(s: State, j: nat)
    requires PcOf(s, s.running).Idle? && Fd(s.running, j) in s.fds
    ensures Next(Next(Next(Next(s, StartClose(j)), Call(true)), Call(true)), Call(true)) ==
            s.(fds := s.fds - {Fd(s.running, j)}, data := s.data - {Fd(s.running, j)}, pcs := s.pcs[s.running := Idle])
  {
    hide FdCount, DataCount;
    var k := Fd(s.running, j);
    var t := Next(s, StartClose(j));
    assert PcOf(t, s.running) == Close1(j, false, 0);
    var t' := Next(t, Call(true));
    assert t' == Goto(t.(fds := s.fds - {k}), Close2(j, false, 0));
    var t'' := Next(t', Call(true));
    assert t'' == Goto(t'.(data := s.data - {k}), Close3(j, false, 0));
    assert s.fds - {k} - {k} == s.fds - {k};
  }

  lemma ForksAgain(s: State)
    requires Quiet(s, ThreeFds())
    ensures var t := Run(s, [Switch(0), StartFork(2), Call(true), Switch(1), StartCheck(0)]);
      t.running == 1 && PcOf(t, 1) == Check1(0) && t.fds == ThreeFds()[Fd(2, 0) := ReadEnd] && t.data == ThreeFds().Keys
  {
    hide Run, FdCount, DataCount;
    RunFive(s, Switch(0), StartFork(2), Call(true), Switch(1), StartCheck(0));
    var t := Next(s, Switch(0));
    assert PcOf(s, 0).Idle?;
    forall e: nat ensures PcOf(t, e).Idle? {
      assert PcOf(s, e).Idle?;
    }
    BeginsFork(t);
    var u := Next(Next(t, StartFork(2)), Call(true));
    assert PcOf(s, 1).Idle?;
  }

  lemma BeginsFork(s: State)
    requires Quiet(s, ThreeFds()) && s.running == 0
    ensures var t := Next(Next(s, StartFork(2)), Call(true));
      t.fds == ThreeFds()[Fd(2, 0) := ReadEnd] && t.data == ThreeFds().Keys && PcOf(t, 1).Idle?
  {
    hide FdCount, DataCount;
    assert PcOf(s, 0).Idle? && PcOf(s, 1).Idle? && PcOf(s, 2).Idle?;
    var t := Next(s, StartFork(2));
    assert Fresh(s, 2);
    assert PcOf(t, 0) == ForkFd(2, 0);
  }

  /** A check that nobody interrupts answers whether the two counts are equal. */
  lemma CheckAlone(s: State, j: nat)
    requires PcOf(s, s.running) == Check1(j)
    ensures Run(s, [Call(true), Call(true), Call(true), Call(true)]) ==
            Goto(s, Found(j, FdCount(s, Fd(s.running, j)) == DataCount(s, Fd(s.running, j))))
  {
    hide Next, Run, Goto, PcOf, StepPc, FdCount, DataCount, RunsOf;
    var e, k, c := s.running, Fd(s.running, j), Call(true);
    var n, a, b := RunsOf(s, e), FdCount(s, k), DataCount(s, k);
    var s1, s2, s3 := Goto(s, Check2(j, n)), Goto(s, Check3(j, n, a)), Goto(s, Check4(j, n, a, b));
    RunFour(s, c, c, c, c);
    GotoSelf(s);
    Reads(s, Check1(j), k);
    Reads(s, Check2(j, n), k);
    Reads(s, Check3(j, n, a), k);
    Reads(s, Check4(j, n, a, b), k);
    assert Next(s, c) == s1;
    assert Next(s1, c) == s2;
    assert Next(s2, c) == s3;
  }

  lemma GotoSelf(s: State)
    requires !PcOf(s, s.running).Idle?
    ensures s == Goto(s, PcOf(s, s.running))
  {
  }

  /** A check's next read changes nothing but where it is. */
  lemma Reads(s: State, pc: Pc, k: Fd)
    requires (pc.Check1? || pc.Check2? || pc.Check3? || pc.Check4?) && k == Fd(s.running, pc.j)
    ensures Next(Goto(s, pc), Call(true)) == Goto(s, StepPc(Goto(s, pc), true))
    ensures StepPc(Goto(s, pc), true) ==
      match pc
      case Check1(j) => Check2(j, RunsOf(s, s.running))
      case Check2(j, n) => Check3(j, n, FdCount(s, k))
      case Check3(j, n, a) => Check4(j, n, a, DataCount(s, k))
      case Check4(j, n, a, b) => if RunsOf(s, s.running) == n then Found(j, a == b) else Check1(j)
      case _ => Idle
  {
    var t := Goto(s, pc);
    assert PcOf(t, s.running) == pc;
    assert FdRefs(t, ReadEnd) == FdRefs(s, ReadEnd) && FdRefs(t, WriteEnd) == FdRefs(s, WriteEnd);
    assert FdCount(t, k) == FdCount(s, k) && DataCount(t, k) == DataCount(s, k);
    hide FdCount, DataCount, FdRefs;
    var pc' := StepPc(t, true);
    assert t.pcs[s.running := pc'] == s.pcs[s.running := pc'];
  }

  lemma Asks(s: State)
    requires s.running == 1 && PcOf(s, 1) == Check1(0)
    requires s.fds == ThreeFds()[Fd(2, 0) := ReadEnd] && s.data == ThreeFds().Keys
    ensures var t := Run(s, [Call(true), Call(true), Call(true), Call(true)]);
      t.running == 1 && PcOf(t, 1) == Found(0, true) && t.fds == s.fds && FdRefs(t, WriteEnd) == {Fd(0, 1)}
  {
    hide Run;
    CheckAlone(s, 0);
    assert FdRefs(s, ReadEnd) == {Fd(0, 0), Fd(1, 0), Fd(2, 0)};
    assert s.data == {Fd(0, 0), Fd(0, 1), Fd(1, 0)};
  }
}
