/** The E1000 receive ring: the device's stores of bytes, descriptors and RDH interleaved with the driver's accesses to
    RDT, descriptors and buffers, one at a time. */
module ReceiveRing {
  /** A packet fits one 2048-byte buffer. */
  type Packet = s: seq<int> | |s| <= 2048

  type Buffer = s: seq<int> | |s| == 2048 witness seq(2048, i => 0)

  /** done stands for both the DD and the EOP status bits. */
  datatype Desc = Desc(done: bool, length: nat)

  datatype DevicePc =
    | Waiting
    | Filling(pkt: Packet, k: nat)   // the first k bytes are in the buffer
    | Closing(pkt: Packet)           // before the descriptor is written back
    | Advancing                      // before RDH moves on

  datatype DriverPc =
    | Ready
    | GotTail(next: nat)                            // RDT has been read
    | GotLength(next: nat, length: nat)             // the descriptor's word with the length has been read
    | GotStatus(next: nat, done: bool)              // or the one with the status
    | GotDesc(next: nat, desc: Desc)                // the descriptor has been read
    | Copying(next: nat, length: nat, k: nat, data: seq<int>) // RDT has been written, k bytes are copied
    | Clearing(next: nat, data: seq<int>)           // before the descriptor is reset

  /** stored and delivered are the packets so far that the device has stored and the driver has returned. The compiler
      may read the words of a descriptor in either order: lengthFirst says which. torn are the numbers of the packets
      whose descriptor was written back after its length had been read and before its status was. */
  datatype Ring = Ring(rdh: nat, rdt: nat, descs: seq<Desc>, bufs: seq<Buffer>, dev: DevicePc, drv: DriverPc,
                       stored: seq<Packet>, delivered: seq<seq<int>>, lengthFirst: bool, torn: set<nat>)

  datatype Step = Arrive(pkt: Packet) | Device | Driver

  predicate Shaped(r: Ring) {
    && |r.descs| == 256 && |r.bufs| == 256 && r.rdh < 256 && r.rdt < 256
    && (!r.drv.Ready? ==> r.drv.next < 256)
    && (r.drv.Copying? ==> r.drv.length <= 2048)
    && (r.dev.Filling? ==> r.dev.k <= |r.dev.pkt|)
  }

  function Succ(i: nat): nat {
    if i == 255 then 0 else i + 1
  }

  /** init_receive. */
  function Start(lengthFirst: bool): Ring {
    Ring(1, 0, seq(256, i => Desc(false, 0)), seq(256, i => seq(2048, j => 0)), Waiting, Ready, [], [], lengthFirst, {})
  }

  /** The driver has read the length but not the status of the descriptor that is about to be written. */
  predicate Tears(r: Ring) {
    r.drv.GotLength? && |r.stored| == |r.delivered|
  }

  /** A packet from the wire is taken only by an idle device with a descriptor to spare; otherwise it is dropped. */
  function DeviceStep(r: Ring): Ring
    requires Shaped(r)
  {
    match r.dev
    case Waiting => r
    case Filling(pkt, k) =>
      if k == |pkt| then r.(dev := Closing(pkt))
      else r.(dev := Filling(pkt, k + 1), bufs := r.bufs[r.rdh := r.bufs[r.rdh][k := pkt[k]]])
    case Closing(pkt) =>
      r.(dev := Advancing, descs := r.descs[r.rdh := Desc(true, |pkt|)], stored := r.stored + [pkt],
         torn := if Tears(r) then r.torn + {|r.stored|} else r.torn)
    case Advancing => r.(dev := Waiting, rdh := Succ(r.rdh))
  }

  /** e1000_receive_packet; it returns at once when the next descriptor is not done. */
  function DriverStep(r: Ring): Ring
    requires Shaped(r)
  {
    match r.drv
    case Ready => r.(drv := GotTail(Succ(r.rdt)))
    case GotTail(next) =>
      r.(drv := if r.lengthFirst then GotLength(next, r.descs[next].length) else GotStatus(next, r.descs[next].done))
    case GotLength(next, length) => r.(drv := GotDesc(next, Desc(r.descs[next].done, length)))
    case GotStatus(next, done) => r.(drv := GotDesc(next, Desc(done, r.descs[next].length)))
    case GotDesc(next, desc) =>
      if !desc.done || desc.length > 2048 then r.(drv := Ready)
      else r.(drv := Copying(next, desc.length, 0, []), rdt := next)
    case Copying(next, length, k, data) =>
      if k >= length then r.(drv := Clearing(next, data))
      else r.(drv := Copying(next, length, k + 1, data + [r.bufs[next][k]]))
    case Clearing(next, data) =>
      r.(drv := Ready, descs := r.descs[next := Desc(false, 0)], delivered := r.delivered + [data])
  }

  function Next(r: Ring, s: Step): Ring
    requires Shaped(r)
  {
    match s
    case Arrive(pkt) => if r.dev.Waiting? && r.rdh != r.rdt then r.(dev := Filling(pkt, 0)) else r
    case Device => DeviceStep(r)
    case Driver => DriverStep(r)
  }

  // ---------------------------------------------------------------- the invariant

  /** How many times RDT has moved. */
  function Taken(r: Ring): nat {
    |r.delivered| + if r.drv.Copying? || r.drv.Clearing? then 1 else 0
  }

  /** Packet number p, counting from 0, goes into slot p + 1; the first slot starts out as the driver's. */
  function SlotOf(p: nat): nat {
    (p + 1) % 256
  }

  ghost predicate Waits(descs: seq<Desc>, bufs: seq<Buffer>, pkt: Packet, slot: nat)
    requires |descs| == 256 == |bufs| && slot < 256
  {
    descs[slot] == Desc(true, |pkt|) && bufs[slot][..|pkt|] == pkt
  }

  /** The packets stored after the first d wait in their slots. */
  ghost predicate Held(descs: seq<Desc>, bufs: seq<Buffer>, stored: seq<Packet>, d: nat)
    requires |descs| == 256 == |bufs|
  {
    forall p: nat :: d <= p < |stored| ==> Waits(descs, bufs, stored[p], SlotOf(p))
  }

  /** The slots after the last stored packet are reset. */
  ghost predicate Blank(descs: seq<Desc>, n: nat, d: nat)
    requires |descs| == 256
  {
    forall p: nat :: n <= p < d + 256 ==> descs[SlotOf(p)] == Desc(false, 0)
  }

  ghost predicate Counts(r: Ring) {
    && |r.delivered| <= Taken(r) <= |r.stored| <= Taken(r) + 255
    && r.rdt == Taken(r) % 256
    && r.rdh == (|r.stored| + if r.dev.Advancing? then 0 else 1) % 256
    && (r.dev.Filling? || r.dev.Closing? ==> |r.stored| < Taken(r) + 255)
  }

  /** What the driver makes of packet p: nothing, if its descriptor was torn. */
  function Seen(r: Ring, p: nat): seq<int>
    requires p < |r.stored|
  {
    if p in r.torn then [] else r.stored[p]
  }

  /** The next packet has been stored, and its descriptor read in order. */
  predicate Fresh(r: Ring) {
    |r.delivered| < |r.stored| && |r.delivered| !in r.torn
  }

  ghost predicate DriverOk(r: Ring)
    requires Shaped(r)
  {
    var d := |r.delivered|;
    match r.drv
    case Ready => d !in r.torn
    case GotTail(next) => next == (Taken(r) + 1) % 256 && d !in r.torn
    case GotLength(next, length) =>
      r.lengthFirst && next == (Taken(r) + 1) % 256 && length == if Fresh(r) then |r.stored[d]| else 0
    case GotStatus(next, done) =>
      !r.lengthFirst && next == (Taken(r) + 1) % 256 && d !in r.torn && (done ==> d < |r.stored|)
    case GotDesc(next, desc) =>
      && next == (Taken(r) + 1) % 256 && (d in r.torn ==> desc.done)
      && (desc.done ==> d < |r.stored| && desc.length == |Seen(r, d)|)
    case Copying(next, length, k, data) =>
      && next == Taken(r) % 256 && d < |r.stored|
      && length == |Seen(r, d)| && k <= length && data == Seen(r, d)[..k]
    case Clearing(next, data) =>
      next == Taken(r) % 256 && d < |r.stored| && data == Seen(r, d)
  }

  /** Only packets that have been stored and looked at are torn, and none if the status is read first. */
  ghost predicate TornOk(r: Ring) {
    forall p :: p in r.torn ==> r.lengthFirst && p < |r.stored| && p <= |r.delivered|
  }

  ghost predicate AllSeen(r: Ring) {
    |r.delivered| <= |r.stored| && forall p: nat :: p < |r.delivered| ==> r.delivered[p] == Seen(r, p)
  }

  ghost predicate Inv(r: Ring) {
    && Shaped(r) && Counts(r) && DriverOk(r) && TornOk(r) && AllSeen(r)
    && Held(r.descs, r.bufs, r.stored, |r.delivered|) && Blank(r.descs, |r.stored|, |r.delivered|)
    && (r.dev.Filling? ==> r.bufs[r.rdh][..r.dev.k] == r.dev.pkt[..r.dev.k])
    && (r.dev.Closing? ==> r.bufs[r.rdh][..|r.dev.pkt|] == r.dev.pkt)
  }

  lemma Slots(p: nat, q: nat)
    requires p < q < p + 256
    ensures SlotOf(p) != SlotOf(q) && p % 256 != q % 256
  {
    Apart256(p, q);
    Apart256(p + 1, q + 1);
  }

  lemma Apart256(p: nat, q: nat)
    requires p < q < p + 256
    ensures p % 256 != q % 256
  {
    var i, j := p / 256, q / 256;
    assert p == 256 * i + p % 256 && q == 256 * j + q % 256;
    assert j == i || j == i + 1;
  }

  lemma SuccIs(p: nat)
    ensures Succ(p % 256) == (p + 1) % 256
  {
  }

  lemma StartInv(lengthFirst: bool)
    ensures Inv(Start(lengthFirst))
  {
  }

  /** Writing into the slot after the last stored packet disturbs none of those that wait. */
  lemma HeldFill(descs: seq<Desc>, bufs: seq<Buffer>, stored: seq<Packet>, d: nat, buf: Buffer)
    requires |descs| == 256 == |bufs| && Held(descs, bufs, stored, d) && |stored| < d + 256
    ensures Held(descs, bufs[SlotOf(|stored|) := buf], stored, d)
  {
    forall p: nat | d <= p < |stored| ensures SlotOf(p) != SlotOf(|stored|) {
      Slots(p, |stored|);
    }
    hide SlotOf;
  }

  lemma HeldClose(descs: seq<Desc>, bufs: seq<Buffer>, stored: seq<Packet>, d: nat, pkt: Packet)
    requires |descs| == 256 == |bufs| && Held(descs, bufs, stored, d) && d <= |stored| < d + 256
    requires bufs[SlotOf(|stored|)][..|pkt|] == pkt && Blank(descs, |stored|, d)
    ensures var descs' := descs[SlotOf(|stored|) := Desc(true, |pkt|)];
      Held(descs', bufs, stored + [pkt], d) && Blank(descs', |stored| + 1, d)
  {
    forall p: nat | d <= p < d + 256 && p != |stored| ensures SlotOf(p) != SlotOf(|stored|) {
      if p < |stored| {
        Slots(p, |stored|);
      } else {
        Slots(|stored|, p);
      }
    }
    hide SlotOf;
    var stored' := stored + [pkt];
    assert forall p: nat :: d <= p < |stored| ==> stored'[p] == stored[p];
  }

  lemma HeldClear(descs: seq<Desc>, bufs: seq<Buffer>, stored: seq<Packet>, d: nat)
    requires |descs| == 256 == |bufs| && Held(descs, bufs, stored, d) && d < |stored| <= d + 256
    requires Blank(descs, |stored|, d)
    ensures var descs' := descs[SlotOf(d) := Desc(false, 0)];
      Held(descs', bufs, stored, d + 1) && Blank(descs', |stored|, d + 1)
  {
    forall p: nat | d < p < d + 256 ensures SlotOf(p) != SlotOf(d) {
      Slots(d, p);
    }
    assert SlotOf(d + 256) == SlotOf(d);
    hide SlotOf;
  }

  lemma DeviceFills(r: Ring)
    requires Inv(r) && r.dev.Filling?
    ensures Inv(DeviceStep(r))
  {
    var pkt, k := r.dev.pkt, r.dev.k;
    if k == |pkt| {
      SameDriver(r, DeviceStep(r));
      assert r.bufs[r.rdh][..k] == pkt[..k] == pkt;
      hide Held, Blank, DriverOk, TornOk, AllSeen, SlotOf;
    } else {
      assert r.rdh == SlotOf(|r.stored|);
      hide Held, Blank, SlotOf;
      HeldFill(r.descs, r.bufs, r.stored, |r.delivered|, r.bufs[r.rdh][k := pkt[k]]);
      OneByte(r.bufs[r.rdh], pkt, k);
      SameDriver(r, DeviceStep(r));
      hide DriverOk, TornOk, AllSeen, Counts;
    }
  }

  /** What concerns the driver and the history only. */
  lemma SameDriver(r: Ring, r': Ring)
    requires Shaped(r) && Shaped(r') && DriverOk(r) && TornOk(r) && AllSeen(r)
    requires r'.drv == r.drv && r'.rdt == r.rdt && r'.stored == r.stored && r'.delivered == r.delivered
    requires r'.torn == r.torn && r'.lengthFirst == r.lengthFirst
    requires Counts(r) && r.dev.Filling? && (r'.dev.Filling? || r'.dev.Closing?) && r'.rdh == r.rdh
    ensures DriverOk(r') && TornOk(r') && AllSeen(r') && Counts(r')
  {
  }

  lemma OneByte(buf: Buffer, pkt: Packet, k: nat)
    requires k < |pkt| && buf[..k] == pkt[..k]
    ensures buf[k := pkt[k]][..k + 1] == pkt[..k + 1]
  {
    assert buf[k := pkt[k]][..k + 1] == buf[..k] + [pkt[k]] == pkt[..k + 1];
  }

  lemma DeviceCloses(r: Ring)
    requires Inv(r) && r.dev.Closing?
    ensures Inv(DeviceStep(r))
  {
    HeldClose(r.descs, r.bufs, r.stored, |r.delivered|, r.dev.pkt);
    hide Held, Blank;
  }

  lemma DeviceKeeps(r: Ring)
    requires Inv(r)
    ensures Inv(DeviceStep(r))
  {
    if r.dev.Filling? {
      DeviceFills(r);
    } else if r.dev.Closing? {
      DeviceCloses(r);
    } else {
      hide Held, Blank;
      SuccIs(|r.stored|);
    }
  }

  lemma DriverReads(r: Ring)
    requires Inv(r) && !r.drv.Copying? && !r.drv.Clearing?
    ensures Inv(DriverStep(r))
  {
    NextPacket(r);
    hide Held, Blank;
    SuccIs(Taken(r));
  }

  lemma DriverCopies(r: Ring)
    requires Inv(r) && r.drv.Copying?
    ensures Inv(DriverStep(r))
  {
    NextPacket(r);
    hide Held, Blank;
  }

  lemma DriverClears(r: Ring)
    requires Inv(r) && r.drv.Clearing?
    ensures Inv(DriverStep(r))
  {
    HeldClear(r.descs, r.bufs, r.stored, |r.delivered|);
    hide Held, Blank;
  }

  lemma DriverKeeps(r: Ring)
    requires Inv(r)
    ensures Inv(DriverStep(r))
  {
    hide Inv;
    if r.drv.Copying? {
      DriverCopies(r);
    } else if r.drv.Clearing? {
      DriverClears(r);
    } else {
      DriverReads(r);
    }
  }

  /** What the driver finds in the slot after the last delivered packet. */
  lemma NextPacket(r: Ring)
    requires Inv(r)
    ensures if |r.delivered| < |r.stored| then Waits(r.descs, r.bufs, r.stored[|r.delivered|], SlotOf(|r.delivered|))
            else r.descs[SlotOf(|r.delivered|)] == Desc(false, 0)
  {
    hide SlotOf;
  }

  lemma ArriveKeeps(r: Ring, pkt: Packet)
    requires Inv(r)
    ensures Inv(Next(r, Arrive(pkt)))
  {
    hide Held, Blank;
    if r.dev.Waiting? {
      Room(r);
    }
  }

  lemma NextKeeps(r: Ring, s: Step)
    requires Inv(r)
    ensures Inv(Next(r, s))
  {
    hide Inv;
    match s
    case Arrive(pkt) => ArriveKeeps(r, pkt);
    case Device => DeviceKeeps(r);
    case Driver => DriverKeeps(r);
  }

  /** RDH differs from RDT exactly when the device has a descriptor to spare. */
  lemma Room(r: Ring)
    requires Inv(r) && r.dev.Waiting?
    ensures r.rdh != r.rdt <==> |r.stored| < Taken(r) + 255
  {
    hide Held, Blank, DriverOk, AllSeen, TornOk;
    var n := |r.stored|;
    if n < Taken(r) + 255 {
      Slots(Taken(r), n + 1);
    }
  }

  // ---------------------------------------------------------------- runs

  function Run(lengthFirst: bool, steps: seq<Step>): (r: Ring)
    ensures Inv(r) && r.lengthFirst == lengthFirst
    decreases |steps|
  {
    if steps == [] then StartInv(lengthFirst); Start(lengthFirst) else
    var before := Run(lengthFirst, steps[..|steps| - 1]);
    NextKeeps(before, steps[|steps| - 1]);
    Next(before, steps[|steps| - 1])
  }

  /** Packets are delivered in order, each once, and of those stored none is lost: the ones not yet delivered are
      whole in their buffers, at most 256 of them, the one that is being copied included. A packet whose descriptor was
      torn is delivered empty and every other one whole; if the status is read first none is torn. */
  lemma InOrder(lengthFirst: bool, steps: seq<Step>)
    ensures var r := Run(lengthFirst, steps);
      && |r.delivered| <= |r.stored| <= |r.delivered| + 256
      && (forall p: nat :: p < |r.delivered| ==> r.delivered[p] == if p in r.torn then [] else r.stored[p])
      && (forall p: nat :: |r.delivered| <= p < |r.stored| ==> Waits(r.descs, r.bufs, r.stored[p], SlotOf(p)))
      && (!lengthFirst ==> r.torn == {})
      && (r.delivered == r.stored[..|r.delivered|] <==>
          forall p: nat :: p < |r.delivered| && p in r.torn ==> r.stored[p] == [])
  {
    var r := Run(lengthFirst, steps);
    assert forall p: nat :: p < |r.delivered| ==> r.delivered[p] == Seen(r, p);
    assert forall p: nat :: p < |r.delivered| ==> r.stored[..|r.delivered|][p] == r.stored[p];
  }

  /** The device never writes the buffer the driver is copying from, although RDT moves before the copy. */
  lemma NeverOverwritten(lengthFirst: bool, steps: seq<Step>)
    ensures var r := Run(lengthFirst, steps);
      (r.drv.Copying? || r.drv.Clearing?) && (r.dev.Filling? || r.dev.Closing?) ==> r.rdh != r.drv.next
  {
    var r := Run(lengthFirst, steps);
    hide Run, Inv;
    if (r.drv.Copying? || r.drv.Clearing?) && (r.dev.Filling? || r.dev.Closing?) {
      NotTheSame(r);
    }
  }

  lemma NotTheSame(r: Ring)
    requires Inv(r) && (r.drv.Copying? || r.drv.Clearing?) && (r.dev.Filling? || r.dev.Closing?)
    ensures r.rdh != r.drv.next
  {
    hide Held, Blank;
    Slots(Taken(r), |r.stored| + 1);
  }

  lemma RunOn(lengthFirst: bool, steps: seq<Step>, s: Step)
    ensures Run(lengthFirst, steps + [s]) == Next(Run(lengthFirst, steps), s)
  {
    assert (steps + [s])[..|steps|] == steps;
  }

  /** A packet of one byte that arrives while the driver is between the two words. */
  function TornSteps(): seq<Step> {
    [Arrive([7])] + [Driver] + [Driver] + [Device] + [Device] + [Device] + [Driver] + [Driver] + [Driver] + [Driver]
  }

  /** It is delivered as an empty one. */
  lemma DeliveredEmpty()
    ensures var r := Run(true, TornSteps()); r.stored == [[7]] && r.delivered == [[]] && r.torn == {0}
  {
    hide Run, Next, Inv;
    var a := [Arrive([7])] + [Driver] + [Driver];
    var b := a + [Device] + [Device] + [Device];
    RunOn(true, b + [Driver] + [Driver] + [Driver], Driver);
    RunOn(true, b + [Driver] + [Driver], Driver);
    RunOn(true, b + [Driver], Driver);
    RunOn(true, b, Driver);
    Tearing(a);
    ReadsEmpty(Run(true, b));
  }

  /** Where the two are when the descriptor has been written back. */
  predicate TornNow(r: Ring) {
    && r.drv == GotLength(1, 0) && |r.descs| == 256 && r.descs[1].done
    && r.stored == [[7]] && r.delivered == [] && r.torn == {0}
  }

  lemma Tearing(a: seq<Step>)
    requires a == [Arrive([7])] + [Driver] + [Driver]
    ensures TornNow(Run(true, a + [Device] + [Device] + [Device]))
  {
    RunOn(true, [], Arrive([7]));
    assert [] + [Arrive([7])] == [Arrive([7])];
    RunOn(true, [Arrive([7])], Driver);
    RunOn(true, [Arrive([7])] + [Driver], Driver);
    RunOn(true, a, Device);
    RunOn(true, a + [Device], Device);
    RunOn(true, a + [Device] + [Device], Device);
    var r := Run(true, a);
    Arrives();
    hide Run, Inv;
    Writes(r);
  }

  /** A packet is coming in and the driver has read the length of the descriptor it will get. */
  predicate HalfRead(r: Ring) {
    && r.dev == Filling([7], 0) && r.drv == GotLength(1, 0) && r.rdh == 1
    && r.stored == [] && r.delivered == [] && r.torn == {}
  }

  lemma Arrives()
    ensures Inv(Start(true)) && Inv(Next(Start(true), Arrive([7]))) && Inv(Next(Next(Start(true), Arrive([7])), Driver))
    ensures HalfRead(Next(Next(Next(Start(true), Arrive([7])), Driver), Driver))
  {
    StartInv(true);
    NextKeeps(Start(true), Arrive([7]));
    NextKeeps(Next(Start(true), Arrive([7])), Driver);
    hide Inv;
  }

  lemma Writes(r: Ring)
    requires Inv(r) && HalfRead(r)
    ensures Inv(Next(r, Device)) && Inv(Next(Next(r, Device), Device))
    ensures TornNow(Next(Next(Next(r, Device), Device), Device))
  {
    NextKeeps(r, Device);
    NextKeeps(Next(r, Device), Device);
    hide Inv;
  }

  lemma ReadsEmpty(r: Ring)
    requires Inv(r) && TornNow(r)
    ensures Inv(Next(r, Driver)) && Inv(Next(Next(r, Driver), Driver))
    ensures Inv(Next(Next(Next(r, Driver), Driver), Driver))
    ensures var r' := Next(Next(Next(Next(r, Driver), Driver), Driver), Driver);
      r'.stored == [[7]] && r'.delivered == [[]] && r'.torn == {0}
  {
    NextKeeps(r, Driver);
    NextKeeps(Next(r, Driver), Driver);
    NextKeeps(Next(Next(r, Driver), Driver), Driver);
    hide Inv;
  }
}
