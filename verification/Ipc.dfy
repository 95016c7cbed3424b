/** IPC rendezvous over runs of module Syscalls: what lies between two receives of an environment. */
module Ipc {
  import opened Mmu
  import opened Vm
  import opened Syscalls

  /** ev is a sys_ipc_recv that blocks e. */
  predicate Blocks(s: System, ev: Event, e: Slot) {
    ev.CallIpcRecv? && ev.cur == e && Enabled(s.envs, ev) && Step(s, ev).1 == 0
  }

  /** ev is a send to e that goes through. */
  predicate Delivers(s: System, ev: Event, e: Slot) {
    && ev.CallIpcTrySend? && Enabled(s.envs, ev)
    && EnvOf(s.envs, ev.cur, ev.envid, false) == Some(e) && Step(s, ev).1 == 0
  }

  /** ev is a sys_env_set_status that reaches e while it is blocked in a receive. */
  predicate Disturbs(s: System, ev: Event, e: Slot) {
    && ev.CallSetStatus? && Enabled(s.envs, ev) && s.envs[e].recving
    && EnvOf(s.envs, ev.cur, ev.envid, true) == Some(e)
  }

  datatype Message = Message(from: int, value: nat, perm: Flags)

  /** A page goes with the message when sender and receiver both name an address below UTOP. */
  predicate SendsPage(s: System, ev: Event, e: Slot)
    requires ev.CallIpcTrySend?
  {
    ev.srcva < UTOP && s.envs[e].dstva < UTOP
  }

  function MessageOf(s: System, ev: Event, e: Slot): Message
    requires ev.CallIpcTrySend?
  {
    Message(s.envs[ev.cur].id, ev.value, if SendsPage(s, ev, e) then ev.perm.low else NO_FLAGS)
  }

  /** The messages delivered to e during a run, in order. */
  function Deliveries(s: System, events: seq<Event>, e: Slot): seq<Message>
    decreases |events|
  {
    if events == [] then [] else
    var s1 := Run(s, events[..|events| - 1]);
    var ev := events[|events| - 1];
    Deliveries(s, events[..|events| - 1], e) + if Delivers(s1, ev, e) then [MessageOf(s1, ev, e)] else []
  }

  /** During the run e is not freed and does not block again. */
  predicate Stays(s: System, events: seq<Event>, e: Slot)
    decreases |events|
  {
    events == [] ||
    var s1 := Run(s, events[..|events| - 1]);
    var ev := events[|events| - 1];
    Stays(s, events[..|events| - 1], e) && !Blocks(s1, ev, e) && Step(s1, ev).0.envs[e].status != Free
  }

  predicate Undisturbed(s: System, events: seq<Event>, e: Slot)
    decreases |events|
  {
    events == [] ||
    var s1 := Run(s, events[..|events| - 1]);
    Undisturbed(s, events[..|events| - 1], e) && !Disturbs(s1, events[|events| - 1], e)
  }

  function Received(env: Env): Message {
    Message(env.from, env.value, env.perm)
  }

  /** One step seen from a blocked or awake environment e that it neither frees nor blocks. */
  lemma StepSeen(s: System, managed: set<nat>, ev: Event, e: Slot)
    requires SystemOk(s, managed) && s.envs[e].status != Free
    requires !Blocks(s, ev, e) && Step(s, ev).0.envs[e].status != Free
    ensures var env, env' := s.envs[e], Step(s, ev).0.envs[e];
      if Delivers(s, ev, e) then
        env.recving && !env'.recving && env'.status == Runnable && Received(env') == MessageOf(s, ev, e)
      else
        && env'.recving == env.recving && env'.value == env.value && env'.from == env.from
        && (env'.perm == env.perm || (env.recving && env'.perm == NO_FLAGS))
        && (env.recving && env.status == NotRunnable && !Disturbs(s, ev, e) ==> env'.status == NotRunnable)
  {
    if ev.CallIpcTrySend? {
      SendSeen(s, ev, e);
    } else {
      OtherSeen(s, managed, ev, e);
    }
  }

  lemma SendSeen(s: System, ev: Event, e: Slot)
    requires ev.CallIpcTrySend?
    ensures var env, env' := s.envs[e], Step(s, ev).0.envs[e];
      if Delivers(s, ev, e) then
        env.recving && !env'.recving && env'.status == Runnable && Received(env') == MessageOf(s, ev, e)
      else
        && env'.recving == env.recving && env'.value == env.value && env'.from == env.from && env'.status == env.status
        && (env'.perm == env.perm || (env.recving && env'.perm == NO_FLAGS))
  {
    hide Insert, CanWalk, MayShare, LeafAt, SyscallPerm;
  }

  lemma OtherSeen(s: System, managed: set<nat>, ev: Event, e: Slot)
    requires SystemOk(s, managed) && s.envs[e].status != Free && !ev.CallIpcTrySend?
    requires !Blocks(s, ev, e) && Step(s, ev).0.envs[e].status != Free
    ensures var env, env' := s.envs[e], Step(s, ev).0.envs[e];
      && env'.recving == env.recving && env'.value == env.value && env'.from == env.from && env'.perm == env.perm
      && (env.recving && env.status == NotRunnable && !Disturbs(s, ev, e) ==> env'.status == NotRunnable)
  {
    hide SystemOk, Insert, Store, DropSpace, Alloc, MakeRoot, CanWalk, MayShare, Drop, LeafAt, NextId, SyscallPerm,
         UserPageAddress, IpcTrySend;
    SlotFacts(s, managed, e);
    assert s.envFree != [] ==> s.envFree[0] in s.envFree;
  }

  /** From the moment e blocks: it is still receiving exactly as long as nothing has been delivered,
      at most one message is ever delivered, and its fields then hold that message. */
  lemma {:induction false} Rendezvous(s: System, managed: set<nat>, recv: Event, mid: seq<Event>, e: Slot)
    requires SystemOk(s, managed) && Blocks(s, recv, e) && Stays(Step(s, recv).0, mid, e)
    ensures var s1 := Step(s, recv).0;
      var env, got := Run(s1, mid).envs[e], Deliveries(s1, mid, e);
      && SystemOk(s1, managed) && env.status != Free
      && (env.recving <==> got == []) && |got| <= 1
      && (got != [] ==> Received(env) == got[0])
      && (got == [] ==> env.value == s.envs[e].value && env.from == s.envs[e].from
                        && env.perm in {s.envs[e].perm, NO_FLAGS})
      && (got == [] && Undisturbed(s1, mid, e) ==> env.status == NotRunnable)
    decreases |mid|
  {
    hide SystemOk;
    var s1 := Step(s, recv).0;
    StepKeeps(s, managed, recv);
    if mid != [] {
      hide Step, Delivers, Blocks, Disturbs, MessageOf, Received;
      var before := mid[..|mid| - 1];
      Rendezvous(s, managed, recv, before, e);
      RunKeeps(s1, managed, before);
      StepSeen(Run(s1, before), managed, mid[|mid| - 1], e);
    } else {
      hide Deliveries;
      assert Deliveries(s1, mid, e) == [];
    }
  }

  /** Between two successive receives of e at most one send to it goes through. It is exactly one
      if and only if e is no longer receiving when it calls the second time, and that is so
      whenever no sys_env_set_status reached e while it was blocked. */
  lemma OneSendPerReceive(s: System, managed: set<nat>, recv: Event, mid: seq<Event>, again: Event, e: Slot)
    requires SystemOk(s, managed) && Blocks(s, recv, e) && Stays(Step(s, recv).0, mid, e)
    requires Blocks(Run(Step(s, recv).0, mid), again, e)
    ensures var s1 := Step(s, recv).0;
      var got, env := Deliveries(s1, mid, e), Run(s1, mid).envs[e];
      && |got| <= 1
      && (|got| == 1 <==> !env.recving)
      && (|got| == 1 ==> Received(env) == got[0])
      && (Undisturbed(s1, mid, e) ==> |got| == 1)
  {
    Rendezvous(s, managed, recv, mid, e);
  }

  /** What goes wrong otherwise: a parent that sets a blocked child runnable makes its
      sys_ipc_recv return with no message at all. */
  lemma SetStatusWakes(s: System, managed: set<nat>, recv: Event, e: Slot, p: Slot)
    requires SystemOk(s, managed) && Blocks(s, recv, e)
    requires p != e && s.envs[p].status == Running && s.envs[e].parent == s.envs[p].id
    ensures var s1 := Step(s, recv).0;
      var mid := [CallSetStatus(p, s.envs[e].id, Runnable), Schedule(e)];
      && Stays(s1, mid, e) && Deliveries(s1, mid, e) == [] && Blocks(Run(s1, mid), recv, e)
  {
    hide WellFormed;
    var s1 := Step(s, recv).0;
    var wake, go := CallSetStatus(p, s.envs[e].id, Runnable), Schedule(e);
    var s2 := Step(s1, wake).0;
    assert EnvOk(s.envs[e], e);
    assert s2.envs[e].status == Runnable;
    RunOne(s1, wake);
    assert [wake, go][..1] == [wake];
    assert Run(s1, [wake, go]) == Step(s2, go).0;
    hide Step;
    QuietOne(s1, wake, e);
  }

  lemma QuietOne(s: System, ev: Event, e: Slot)
    requires !ev.CallIpcRecv? && !ev.CallIpcTrySend? && Step(s, ev).0.envs[e].status != Free
    ensures Stays(s, [ev], e) && Deliveries(s, [ev], e) == []
  {
    hide Step;
    assert [ev][..0] == [];
    assert Stays(s, [], e) && Deliveries(s, [], e) == [] && Run(s, []) == s;
  }

  lemma RunOne(s: System, ev: Event)
    ensures Run(s, [ev]) == Step(s, ev).0
  {
    assert [ev][..0] == [];
  }

  /** A failed send leaves everything as it was except that a receiver's env_ipc_perm is cleared. */
  lemma FailedSend(s: System, ev: Event)
    requires ev.CallIpcTrySend? && Enabled(s.envs, ev) && Step(s, ev).1 != 0
    ensures var s', to := Step(s, ev).0, EnvOf(s.envs, ev.cur, ev.envid, false);
      if to.Some? && s.envs[to.value].recving
      then s' == s.(envs := s.envs[to.value := s.envs[to.value].(perm := NO_FLAGS)])
      else s' == s
  {
  }

  /** The page of a message is the page the sender maps, with the receiver's mapping as one more
      reference to it and the permissions the sender named. */
  lemma PageDelivered(s: System, managed: set<nat>, ev: Event, e: Slot)
    requires SystemOk(s, managed) && Delivers(s, ev, e) && SendsPage(s, ev, e)
    ensures var src, dst := LeafAt(ev.cur, ev.srcva), LeafAt(e, s.envs[e].dstva);
      var v, w := s.frames, Step(s, ev).0.frames;
      && src in v.links && dst in w.links && w.links[dst] == Link(v.links[src].page, WithP(ev.perm.low))
      && Holders(w.links, v.links[src].page) == Holders(v.links, v.links[src].page) + {dst}
      && v.links[src].page in w.data && w.data[v.links[src].page] == v.data[v.links[src].page]
  {
    hide WellFormed, Structural, CanWalk, Pdx, Ptx;
    var src, dst := LeafAt(ev.cur, ev.srcva), LeafAt(e, s.envs[e].dstva);
    var p := s.frames.links[src].page;
    MappedIsData(s.frames, managed, src);
    InsertHolds(s.frames, e, dst.d, dst.t, p, ev.perm.low);
  }

  lemma InsertHolds(v: Frames, e: nat, d: nat, t: nat, p: nat, perm: Flags)
    requires CanWalk(v, e, d) && p !in v.free && p in v.data
    ensures var w := Insert(v, e, d, t, p, perm);
      && Leaf(e, d, t) in w.links && w.links[Leaf(e, d, t)] == Link(p, WithP(perm))
      && Holders(w.links, p) == Holders(v.links, p) + {Leaf(e, d, t)}
      && p in w.data && w.data[p] == v.data[p]
  {
    var u := Walk(v, e, d);
    if Table(e, d) !in v.links {
      HoldersAdd(v.links, Table(e, d), Link(v.free[0], TABLE_FLAGS), p);
      assert Table(e, d) !in Holders(v.links, p);
    }
    HoldersAdd(u.links, Leaf(e, d, t), Link(p, WithP(perm)), p);
    assert Leaf(e, d, t) in Holders(Insert(v, e, d, t, p, perm).links, p);
  }
}
