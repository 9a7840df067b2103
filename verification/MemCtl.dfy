/** MEMCTL_AXI4L (io/ExtMem.h) with the memory behind it: a slave whose burst reads are
    pipelined with a latency of two cycles, sharing one memory port with writes. One
    cycle is MEMCTL_AXI4L::step followed by ExtMem::update. */
module MemCtl {
  import opened Axi
  import opened Slave
  import opened Memory
  import opened Arith

  const READ_WAIT := 2
  function Zero(): Word { seq(BUS, _ => 0) }

  /** The registered controller pins; `dout` is write data. */
  datatype MPin = MPin(addr: nat, size: nat, cs: bool, we: bool, dout: Word)

  /** Registers: the two slave machines, then readCount, burst_count_mr, read_blen, read_pending,
      burst_count_mw, mwaddr, mwsize. (mraddr and mrsize are written in every cycle that uses them.) */
  datatype Ctl = Ctl(r: ReadFsm<Word>, w: WriteFsm, mpin: MPin, readCount: nat, countMr: nat, blen: nat,
                     pending: bool, countMw: nat, mwaddr: nat, mwsize: nat)

  function CtlReset(): Ctl {
    Ctl(ReadReset(Zero()), WRITE_RESET, MPin(0, 0, false, false, Zero()), 0, 0, 0, false, 0, 0, 0)
  }

  /** addr + (k << size). */
  function BeatAddr(a: nat, size: nat, k: nat): nat {
    a + k * Pow2(size)
  }

  /** The answers of devReadSetup and devRead. */
  function ReadAnswers(c: Ctl, din: Word): ReadDev<Word> {
    ReadDev(c.w.st == WInit, c.readCount >= READ_WAIT, din)
  }

  /** What devReadSetup and devRead do besides answering, for the call that fsmRead made. */
  function ReadEffects(c: Ctl, call: ReadCall<Word>, len: nat): Ctl {
    match call
    case NoRead => c
    case ReadSetup(accepted) => c.(blen := len, pending := true, countMr := if accepted then 0 else c.countMr)
    case DevRead(_, _, _, _) => c.(pending := c.countMr <= c.blen, countMr := (c.countMr + 1) % 32)
  }

  /** The answers of devWriteSetup and devWrite, asked after fsmRead has run. */
  function WriteAnswers(c: Ctl, rcall: ReadCall<Word>): WriteDev {
    WriteDev(!rcall.DevRead? && !c.pending, true, false)
  }

  /** What devWriteSetup and devWrite do besides answering. */
  function WriteEffects(c: Ctl, call: WriteCall<Word>, addr: nat): Ctl {
    match call
    case NoWrite => c
    case WriteSetup(accepted) => if accepted then c.(mwaddr := addr, countMw := 0) else c
    case DevWrite(a, size, _, data) =>
      c.(mwaddr := BeatAddr(a, size, c.countMw), mwsize := size, countMw := (c.countMw + 1) % 16,
         mpin := c.mpin.(dout := data))
  }

  /** fsmUser; `count` is burst_count_mr as devRead found it. */
  function User(c: Ctl, rcall: ReadCall<Word>, wcall: WriteCall<Word>, count: nat): Ctl {
    var cs := (rcall.DevRead? && c.pending) || wcall.DevWrite?;
    if rcall.DevRead? then
      c.(readCount := (c.readCount + 1) % 256,
         mpin := MPin(BeatAddr(rcall.addr, rcall.size, count), rcall.size, cs, false, c.mpin.dout))
    else
      c.(readCount := 0, mpin := MPin(c.mwaddr, c.mwsize, cs, true, c.mpin.dout))
  }

  /** One step of the controller; `din` is the memory's data as it was before the cycle. */
  function Step(c: Ctl, rm: ReadMa, wm: WriteMa<Word>, din: Word): (Ctl, ReadCall<Word>, WriteCall<Word>) {
    var (r', rcall) := ReadStep(c.r, rm, ReadAnswers(c, din), Zero());
    var c1 := ReadEffects(c.(r := r'), rcall, rm.raddr.len);
    var (w', wcall) := WriteStep(c1.w, wm, WriteAnswers(c1, rcall));
    var c2 := WriteEffects(c1.(w := w'), wcall, wm.waddr.addr);
    (User(c2, rcall, wcall, c.countMr), rcall, wcall)
  }

  /** The pins as set_outpin leaves them: addresses and write data from the registers, dout from the memory. */
  function OutPins(m: MPin, dout: Word): Pins {
    Pins(m.addr, m.size, m.cs, m.we, m.dout, dout)
  }

  /** MEMCTL_AXI4L as an object. The four device methods answer from the registers as the slave machine finds
      them, so they are split into their answer and their effect. */
  class Controller {
    const fsm: SlaveFsm<Word>
    var mpin: MPin
    var readCount: nat
    var countMr: nat
    var blen: nat
    var pending: bool
    var countMw: nat
    var mwaddr: nat
    var mwsize: nat

    ghost function View(): Ctl
      reads this, fsm
    {
      Ctl(fsm.Reads(), fsm.Writes(), mpin, readCount, countMr, blen, pending, countMw, mwaddr, mwsize)
    }

    constructor ()
      ensures View() == CtlReset() && fsm.zero == Zero() && fresh(fsm)
    {
      fsm := new SlaveFsm(Zero());
      mpin := MPin(0, 0, false, false, Zero());
      readCount, countMr, blen, pending, countMw, mwaddr, mwsize := 0, 0, 0, false, 0, 0, 0;
    }

    method NoteRead(call: ReadCall<Word>, len: nat)
      modifies this
      ensures View() == ReadEffects(old(View()), call, len)
    {
      match call {
        case NoRead =>
        case ReadSetup(accepted) =>
          blen := len;
          pending := true;
          if accepted { countMr := 0; }
        case DevRead(_, _, _, _) =>
          pending := countMr <= blen;
          countMr := (countMr + 1) % 32;
      }
    }

    method NoteWrite(call: WriteCall<Word>, addr: nat)
      modifies this
      ensures View() == WriteEffects(old(View()), call, addr)
    {
      match call {
        case NoWrite =>
        case WriteSetup(accepted) =>
          if accepted { mwaddr, countMw := addr, 0; }
        case DevWrite(a, size, _, data) =>
          mpin := mpin.(dout := data);
          SizeValues();
          mwaddr := BeatAddr(a, size, countMw);
          countMw := (countMw + 1) % 16;
          mwsize := size;
      }
    }

    method FsmUser(rcall: ReadCall<Word>, wcall: WriteCall<Word>, count: nat)
      modifies this
      ensures View() == User(old(View()), rcall, wcall, count)
    {
      var cs := (rcall.DevRead? && pending) || wcall.DevWrite?;
      if rcall.DevRead? {
        readCount := (readCount + 1) % 256;
        mpin := MPin(BeatAddr(rcall.addr, rcall.size, count), rcall.size, cs, false, mpin.dout);
      } else {
        readCount := 0;
        mpin := MPin(mwaddr, mwsize, cs, true, mpin.dout);
      }
    }

    method StepCycle(rm: ReadMa, wm: WriteMa<Word>, pins: Pins)
      returns (pins': Pins, rcall: ReadCall<Word>, wcall: WriteCall<Word>)
      requires fsm.zero == Zero()
      modifies this, fsm
      ensures (View(), rcall, wcall) == Step(old(View()), rm, wm, pins.dout)
      ensures pins' == OutPins(old(mpin), pins.dout)
    {
      var din, count := pins.dout, countMr;
      pins' := OutPins(mpin, pins.dout);
      ghost var c := View();
      rcall := fsm.FsmRead(rm, ReadDev(fsm.wState == WInit, readCount >= READ_WAIT, din));
      ghost var r' := ReadStep(c.r, rm, ReadAnswers(c, din), Zero()).0;
      assert View() == c.(r := r');
      NoteRead(rcall, rm.raddr.len);
      ghost var c1 := View();
      wcall := fsm.FsmWrite(wm, WriteDev(!rcall.DevRead? && !pending, true, false));
      assert View() == c1.(w := WriteStep(c1.w, wm, WriteAnswers(c1, rcall)).0);
      NoteWrite(wcall, wm.waddr.addr);
      FsmUser(rcall, wcall, count);
    }
  }

  // ----- Port exclusion and starvation, for any master -----

  predicate Reading(r: ReadFsm<Word>) {
    r.st == RAddr && !r.burstEnd
  }

  /** Observer of the read bursts: length of the current one, devRead calls, delivered beats and chip selects
      for reads since it was accepted. */
  datatype RObs = RObs(len: nat, calls: nat, beats: nat, selects: nat)

  function Observe(o: RObs, rm: ReadMa, call: ReadCall<Word>, c': Ctl): RObs {
    match call
    case NoRead => o
    case ReadSetup(accepted) => if accepted then RObs(rm.raddr.len, 0, 0, 0) else o
    case DevRead(_, _, ok, _) =>
      RObs(o.len, o.calls + 1, if ok then o.beats + 1 else o.beats,
           if c'.mpin.cs && !c'.mpin.we then o.selects + 1 else o.selects)
  }

  /** The controller between cycles: while a read burst runs, the write machine is idle, and the number of calls
      made so far fixes the pipeline: addresses out, chip selects, beats delivered. */
  ghost predicate CtlInv(c: Ctl, o: RObs) {
    var k := o.calls;
    && o.len <= 15 && c.w.out.resp == Okay
    && (c.mpin.cs && c.mpin.we ==> c.w.st == WBurst || c.w.st == WEnd)
    && (Reading(c.r) ==>
          && c.w.st == WInit
          && c.blen == o.len && c.countMr == c.readCount == k <= o.len + 2
          && o.beats == (if k <= 2 then 0 else k - 2)
          && c.r.count + o.beats == o.len && c.r.out.valid == (o.beats > 0)
          && c.pending == (k <= o.len + 1)
          && o.selects == (if k <= o.len + 1 then k else o.len + 1)
          && (k >= 1 ==> c.mpin == MPin(BeatAddr(c.r.addr, c.r.size, k - 1), c.r.size, k - 1 <= o.len, false, c.mpin.dout)))
    && (c.r.st == RInit ==> !c.r.out.valid)
    && (c.r.st == REnd || (c.r.st == RAddr && c.r.burstEnd) ==>
          !c.pending && o.beats == o.selects == o.len + 1)
    && (c.r.st == RAddr && c.r.burstEnd ==> c.r.out.valid && c.r.count == 0)
  }

  /** One cycle's inputs of the controller. Burst lengths are 4-bit. */
  datatype CtlIn = CtlIn(rm: ReadMa, wm: WriteMa<Word>, din: Word) {
    predicate Ok() {
      (rm.raddr.valid ==> rm.raddr.len <= 15) && (wm.waddr.valid ==> wm.waddr.len <= 15)
    }
  }

  /** The step seen from the two slave machines. */
  lemma StepShape(c: Ctl, x: CtlIn)
    ensures
      var (c', rcall, wcall) := Step(c, x.rm, x.wm, x.din);
      var pending := ReadEffects(c, rcall, x.rm.raddr.len).pending;
      && (c'.r, rcall) == ReadStep(c.r, x.rm, ReadAnswers(c, x.din), Zero())
      && (c'.w, wcall) == WriteStep(c.w, x.wm, WriteDev(!rcall.DevRead? && !pending, true, false))
      && c'.pending == pending
      && c'.countMr == ReadEffects(c, rcall, x.rm.raddr.len).countMr
      && c'.blen == ReadEffects(c, rcall, x.rm.raddr.len).blen
      && c'.readCount == (if rcall.DevRead? then (c.readCount + 1) % 256 else 0)
      && c'.countMw == (match wcall
                        case NoWrite => c.countMw
                        case WriteSetup(ok) => if ok then 0 else c.countMw
                        case DevWrite(_, _, _, _) => (c.countMw + 1) % 16)
      && c'.mpin.cs == ((rcall.DevRead? && pending) || wcall.DevWrite?)
      && c'.mpin.we == !rcall.DevRead?
      && c'.mpin.dout == (if wcall.DevWrite? then wcall.data else c.mpin.dout)
      && (rcall.DevRead? ==> c'.mpin.addr == BeatAddr(c.r.addr, c.r.size, c.countMr) && c'.mpin.size == c.r.size)
      && (wcall.DevWrite? && !rcall.DevRead? ==>
            c'.mpin.addr == BeatAddr(c.w.addr, c.w.size, c.countMw) && c'.mpin.size == c.w.size)
  {
  }

  lemma CtlInvStep(c: Ctl, o: RObs, x: CtlIn)
    requires CtlInv(c, o) && x.Ok()
    ensures
      var (c', rcall, wcall) := Step(c, x.rm, x.wm, x.din);
      && CtlInv(c', Observe(o, x.rm, rcall, c'))
      && !(rcall.DevRead? && wcall.DevWrite?)
      && (rcall.DevRead? <==> Reading(c.r))
  {
    StepShape(c, x);
    if Reading(c.r) {
      ReadingStep(c, o, x);
    } else {
      QuietStep(c, o, x);
    }
  }

  lemma ReadingStep(c: Ctl, o: RObs, x: CtlIn)
    requires CtlInv(c, o) && x.Ok() && Reading(c.r)
    ensures
      var (c', rcall, wcall) := Step(c, x.rm, x.wm, x.din);
      CtlInv(c', Observe(o, x.rm, rcall, c')) && rcall.DevRead? && !wcall.DevWrite?
  {
    StepShape(c, x);
  }

  lemma QuietStep(c: Ctl, o: RObs, x: CtlIn)
    requires CtlInv(c, o) && x.Ok() && !Reading(c.r)
    ensures
      var (c', rcall, wcall) := Step(c, x.rm, x.wm, x.din);
      CtlInv(c', Observe(o, x.rm, rcall, c')) && !rcall.DevRead?
  {
    StepShape(c, x);
  }

  function CtlRun(xs: seq<CtlIn>): (Ctl, RObs) {
    if xs == [] then (CtlReset(), RObs(0, 0, 0, 0))
    else
      var (c, o) := CtlRun(xs[..|xs| - 1]);
      var x := xs[|xs| - 1];
      var (c', rcall, _) := Step(c, x.rm, x.wm, x.din);
      (c', Observe(o, x.rm, rcall, c'))
  }

  lemma {:induction false} CtlInvAlways(xs: seq<CtlIn>)
    requires forall n :: 0 <= n < |xs| ==> xs[n].Ok()
    ensures CtlInv(CtlRun(xs).0, CtlRun(xs).1)
  {
    if xs == [] {
    } else {
      var before := xs[..|xs| - 1];
      CtlInvAlways(before);
      CtlInvStep(CtlRun(before).0, CtlRun(before).1, xs[|xs| - 1]);
    }
  }

  /** Single-port exclusion: in every cycle of every run, devRead and devWrite are not both called; the port
      is driven for at most one of them, and as a read exactly when a read is under way. A burst of
      length len is over only after exactly len+1 beats and exactly len+1 chip selects for reads. */
  lemma PortExclusion(xs: seq<CtlIn>, x: CtlIn)
    requires x.Ok() && forall n :: 0 <= n < |xs| ==> xs[n].Ok()
    ensures
      var (c, o) := CtlRun(xs);
      var (c', rcall, wcall) := Step(c, x.rm, x.wm, x.din);
      var o' := Observe(o, x.rm, rcall, c');
      && !(rcall.DevRead? && wcall.DevWrite?)
      && (c'.mpin.cs && c'.mpin.we ==> wcall.DevWrite?)
      && (c'.mpin.cs && !c'.mpin.we ==> rcall.DevRead?)
      && (wcall.DevWrite? ==> c'.mpin.cs && c'.mpin.we)
      && (Reading(c.r) && !Reading(c'.r) ==> o'.beats == o'.selects == o'.len + 1)
  {
    CtlInvAlways(xs);
    CtlInvStep(CtlRun(xs).0, CtlRun(xs).1, x);
  }

  /** The calls of each cycle of a run from c. */
  function Calls(c: Ctl, xs: seq<CtlIn>): (cs: seq<(ReadCall<Word>, WriteCall<Word>)>)
    ensures |cs| == |xs|
    decreases |xs|
  {
    if xs == [] then []
    else
      var (c', rcall, wcall) := Step(c, xs[0].rm, xs[0].wm, xs[0].din);
      [(rcall, wcall)] + Calls(c', xs[1..])
  }

  /** From a state in which a read has been refused, no write starts before that read is accepted. */
  lemma {:induction false} PendingReadGoesFirst(c: Ctl, xs: seq<CtlIn>, n: nat) returns (m: nat)
    requires c.r.st == RInit && c.pending
    requires n < |xs| && Calls(c, xs)[n].1 == WriteSetup(true)
    ensures m < n && Calls(c, xs)[m].0 == ReadSetup(true)
    decreases |xs|
  {
    var (c', rcall, wcall) := Step(c, xs[0].rm, xs[0].wm, xs[0].din);
    if rcall == ReadSetup(true) {
      m := 0;
    } else {
      m := PendingReadGoesFirst(c', xs[1..], n - 1);
      m := m + 1;
    }
  }

  /** No starvation of reads: a read refused in the first cycle is accepted before the next write starts,
      whatever the masters do. */
  lemma RefusedReadGoesFirst(c: Ctl, xs: seq<CtlIn>, n: nat)
    requires n < |xs| && Calls(c, xs)[0].0 == ReadSetup(false) && Calls(c, xs)[n].1 == WriteSetup(true)
    ensures exists m :: 0 < m < n && Calls(c, xs)[m].0 == ReadSetup(true)
  {
    var c' := Step(c, xs[0].rm, xs[0].wm, xs[0].din).0;
    assert n > 0;
    var m := PendingReadGoesFirst(c', xs[1..], n - 1);
    assert Calls(c, xs)[m + 1] == Calls(c', xs[1..])[m];
  }

  lemma {:induction false} NoReadWhileWriteWaits(c: Ctl, o: RObs, xs: seq<CtlIn>, n: nat)
    requires CtlInv(c, o) && c.r.st != RInit && c.w.st == WInit && n < |xs|
    requires forall i :: 0 <= i < n ==> xs[i].Ok() && xs[i].wm.waddr.valid && Calls(c, xs)[i].1 != WriteSetup(true)
    ensures Calls(c, xs)[n].0 != ReadSetup(true)
    decreases n
  {
    if n == 0 {
    } else {
      var x := xs[0];
      var (c', rcall, wcall) := Step(c, x.rm, x.wm, x.din);
      CtlInvStep(c, o, x);
      assert Calls(c, xs)[0] == (rcall, wcall);
      forall i | 0 <= i < n - 1
        ensures xs[1..][i].Ok() && xs[1..][i].wm.waddr.valid && Calls(c', xs[1..])[i].1 != WriteSetup(true)
      {
        assert xs[1..][i] == xs[i + 1] && Calls(c', xs[1..])[i] == Calls(c, xs)[i + 1];
      }
      NoReadWhileWriteWaits(c', Observe(o, x.rm, rcall, c'), xs[1..], n - 1);
    }
  }

  /** No starvation of writes: in any run, while a write that was waiting during a read has not been accepted,
      no further read is set up; so the write is accepted before the read after the current one. */
  lemma WaitingWriteGoesFirst(past: seq<CtlIn>, xs: seq<CtlIn>, n: nat)
    requires forall i :: 0 <= i < |past| ==> past[i].Ok()
    requires CtlRun(past).0.r.st != RInit && CtlRun(past).0.w.st == WInit && n < |xs|
    requires forall i :: 0 <= i < n ==>
      xs[i].Ok() && xs[i].wm.waddr.valid && Calls(CtlRun(past).0, xs)[i].1 != WriteSetup(true)
    ensures Calls(CtlRun(past).0, xs)[n].0 != ReadSetup(true)
  {
    CtlInvAlways(past);
    NoReadWhileWriteWaits(CtlRun(past).0, CtlRun(past).1, xs, n);
  }

  /** The controller is a device the read fabric may rely on: once ready in a burst it stays ready; and it
      accepts every write beat and never answers a write with an error. */
  lemma SteadyDevice(xs: seq<CtlIn>, x: CtlIn)
    requires x.Ok() && forall n :: 0 <= n < |xs| ==> xs[n].Ok()
    ensures
      var (c, _) := CtlRun(xs);
      && (c.r.st == RAddr && c.r.out.valid && !c.r.burstEnd ==> ReadAnswers(c, x.din).ok)
      && c.w.out.resp == Okay
      && forall rcall :: WriteAnswers(c, rcall).ok && !WriteAnswers(c, rcall).fault
  {
    CtlInvAlways(xs);
  }

  // ----- The controller with its memory -----

  datatype Sys = Sys(c: Ctl, pins: Pins, mem: Store)

  ghost predicate Wf(s: Sys) {
    && s.mem.Valid() && |s.pins.dout| == BUS && |s.c.mpin.dout| == BUS
    && (s.c.mpin.cs ==> Aligned(s.c.mpin.addr, s.c.mpin.size))
  }

  /** MEMCTL_AXI4L::step, then ExtMem::update. */
  ghost function Cycle(s: Sys, rm: ReadMa, wm: WriteMa<Word>): (Sys, ReadCall<Word>, WriteCall<Word>)
    requires Wf(s)
  {
    var (c', rcall, wcall) := Step(s.c, rm, wm, s.pins.dout);
    var (mem', pins') := Update(s.mem, OutPins(s.c.mpin, s.pins.dout));
    (Sys(c', pins', mem'), rcall, wcall)
  }

  /** Aligned requests of at most sixteen beats, each at most the bus wide. */
  ghost predicate RequestsOk(rm: ReadMa, wm: WriteMa<Word>) {
    && (rm.raddr.valid ==> rm.raddr.len <= 15 && Aligned(rm.raddr.addr, rm.raddr.size))
    && (wm.waddr.valid ==> wm.waddr.len <= 15 && Aligned(wm.waddr.addr, wm.waddr.size))
    && |wm.data| == BUS
  }

  /** Observer: the read bursts, and a reference memory to which every accepted write beat is applied at once,
      beat j of a burst at addr + (j << size). */
  datatype Obs = Obs(r: RObs, arch: Store, wlen: nat, wbeats: nat)

  ghost function ObserveAll(o: Obs, rm: ReadMa, wm: WriteMa<Word>, rcall: ReadCall<Word>, wcall: WriteCall<Word>, c': Ctl): (o': Obs)
    requires o.arch.Valid()
    ensures o'.arch.Valid()
  {
    var o1 := o.(r := Observe(o.r, rm, rcall, c'));
    match wcall
    case NoWrite => o1
    case WriteSetup(accepted) => if accepted then o1.(wlen := wm.waddr.len, wbeats := 0) else o1
    case DevWrite(a, size, _, data) =>
      var b := BeatAddr(a, size, o.wbeats);
      if Aligned(b, size) && |data| == BUS then
        AlignedFits(b, size);
        o1.(arch := o.arch.Poke(b, Lanes(b, size, data)), wbeats := o.wbeats + 1)
      else o1
  }

  /** The registered pins hold a write beat for address a. */
  predicate Covers(m: MPin, a: nat) {
    m.cs && m.we && m.addr <= a < m.addr + Pow2(m.size)
  }

  /** A byte of memory once the write on the registered pins, if any, has reached it. */
  ghost function Settled(m: MPin, mem: Store, a: nat): Byte
    requires mem.Valid() && |m.dout| == BUS && (m.cs ==> Aligned(m.addr, m.size))
  {
    if Covers(m, a) then Lanes(m.addr, m.size, m.dout)[a - m.addr] else mem.Peek(a)
  }

  ghost predicate Agree(m: MPin, mem: Store, arch: Store)
    requires mem.Valid() && arch.Valid() && |m.dout| == BUS && (m.cs ==> Aligned(m.addr, m.size))
  {
    forall a: nat :: arch.Peek(a) == Settled(m, mem, a)
  }

  /** The lanes addressed by beat k of a burst show memory. */
  ghost predicate Shows(a: nat, size: nat, k: nat, word: Word, mem: Store)
    requires mem.Valid() && |word| == BUS
  {
    var b := BeatAddr(a, size, k);
    Aligned(b, size) && forall i :: 0 <= i < Pow2(size) ==> Lanes(b, size, word)[i] == mem.Peek(b + i)
  }

  /** What holds all the time, also when the host has just written to memory. */
  ghost predicate SysCore(s: Sys, o: Obs) {
    && Wf(s) && CtlInv(s.c, o.r) && o.arch.Valid()
    && (s.c.r.st == RAddr ==> Aligned(s.c.r.addr, s.c.r.size))
    && WriteSide(s.c.w, s.c.countMw, o.wlen, o.wbeats)
    && Agree(s.c.mpin, s.mem, o.arch)
  }

  ghost predicate SysInv(s: Sys, o: Obs) {
    && SysCore(s, o)
    && (Reading(s.c.r) && o.r.calls >= 2 ==> Shows(s.c.r.addr, s.c.r.size, o.r.calls - 2, s.pins.dout, s.mem))
  }

  lemma BeatAligned(a: nat, size: nat, k: nat)
    requires Aligned(a, size)
    ensures Aligned(BeatAddr(a, size, k), size)
  {
    StepAligned(a, Pow2(size), k);
  }

  /** After the update the memory itself is what the pins had promised. */
  lemma WriteSettles(s: Sys, o: Obs)
    requires Wf(s) && o.arch.Valid() && Agree(s.c.mpin, s.mem, o.arch)
    ensures
      var mem' := Update(s.mem, OutPins(s.c.mpin, s.pins.dout)).0;
      forall a: nat :: mem'.Peek(a) == o.arch.Peek(a)
  {
    var p := OutPins(s.c.mpin, s.pins.dout);
    forall a: nat ensures Update(s.mem, p).0.Peek(a) == o.arch.Peek(a) {
      UpdateWrites(s.mem, p, a);
    }
  }

  /** The pins registered by one cycle: a write beat at its place in the burst, or no write at all. */
  lemma PinsStep(s: Sys, o: Obs, rm: ReadMa, wm: WriteMa<Word>)
    requires SysCore(s, o) && RequestsOk(rm, wm)
    ensures
      var (c', rcall, wcall) := Step(s.c, rm, wm, s.pins.dout);
      var m := c'.mpin;
      && |m.dout| == BUS && (m.cs ==> Aligned(m.addr, m.size))
      && (if wcall.DevWrite?
          then wcall == DevWrite(s.c.w.addr, s.c.w.size, true, wm.data) && Aligned(s.c.w.addr, s.c.w.size) &&
               m == MPin(BeatAddr(s.c.w.addr, s.c.w.size, o.wbeats), s.c.w.size, true, true, wm.data)
          else !(m.cs && m.we))
  {
    CtlInvStep(s.c, o.r, CtlIn(rm, wm, s.pins.dout));
    if s.c.r.st == RAddr { BeatAligned(s.c.r.addr, s.c.r.size, s.c.countMr); }
    if s.c.w.st != WInit { BeatAligned(s.c.w.addr, s.c.w.size, o.wbeats); }
  }

  /** A write beat on the pins settles to the reference memory with that beat applied. */
  lemma BeatSettles(m: MPin, mem: Store, arch: Store)
    requires mem.Valid() && arch.Valid() && |m.dout| == BUS && Aligned(m.addr, m.size) && m.cs && m.we
    requires forall a: nat :: mem.Peek(a) == arch.Peek(a)
    requires m.addr % PAGE + Pow2(m.size) <= PAGE
    ensures Agree(m, mem, arch.Poke(m.addr, Lanes(m.addr, m.size, m.dout)))
  {
    var bs := Lanes(m.addr, m.size, m.dout);
    forall a: nat ensures arch.Poke(m.addr, bs).Peek(a) == Settled(m, mem, a) {
      PeekPoke(arch, m.addr, bs, a);
    }
  }

  lemma AgreeStep(s: Sys, o: Obs, rm: ReadMa, wm: WriteMa<Word>)
    requires SysCore(s, o) && RequestsOk(rm, wm)
    ensures
      var (s', rcall, wcall) := Cycle(s, rm, wm);
      Wf(s') && Agree(s'.c.mpin, s'.mem, ObserveAll(o, rm, wm, rcall, wcall, s'.c).arch)
  {
    var (s', rcall, wcall) := Cycle(s, rm, wm);
    WriteSettles(s, o);
    PinsStep(s, o, rm, wm);
    if wcall.DevWrite? {
      AlignedFits(s'.c.mpin.addr, s'.c.mpin.size);
      BeatSettles(s'.c.mpin, s'.mem, o.arch);
    }
  }

  /** The write side: the beat counter of the controller is the index of the next beat. */
  ghost predicate WriteSide(w: WriteFsm, countMw: nat, wlen: nat, wbeats: nat) {
    && wlen <= 15
    && (w.st != WInit ==> Aligned(w.addr, w.size))
    && (w.st == WAddrData ==> countMw == wbeats == 0)
    && (w.st == WBurst ==> w.count + wbeats == wlen && countMw == wbeats)
  }

  /** The write side after a step of the write machine. */
  lemma WriteSideNext(w: WriteFsm, countMw: nat, wlen: nat, wbeats: nat, wm: WriteMa<Word>, dev: WriteDev)
    requires WriteSide(w, countMw, wlen, wbeats) && dev.ok && |wm.data| == BUS
    requires wm.waddr.valid ==> wm.waddr.len <= 15 && Aligned(wm.waddr.addr, wm.waddr.size)
    ensures
      var (w', call) := WriteStep(w, wm, dev);
      match call
      case NoWrite => WriteSide(w', countMw, wlen, wbeats)
      case WriteSetup(ok) => if ok then WriteSide(w', 0, wm.waddr.len, 0) else WriteSide(w', countMw, wlen, wbeats)
      case DevWrite(a, size, _, data) =>
        && Aligned(BeatAddr(a, size, wbeats), size) && |data| == BUS
        && WriteSide(w', (countMw + 1) % 16, wlen, wbeats + 1)
  {
    if w.st != WInit { BeatAligned(w.addr, w.size, wbeats); }
  }

  lemma WriteSideStep(s: Sys, o: Obs, rm: ReadMa, wm: WriteMa<Word>)
    requires SysCore(s, o) && RequestsOk(rm, wm)
    ensures
      var (s', rcall, wcall) := Cycle(s, rm, wm);
      var o' := ObserveAll(o, rm, wm, rcall, wcall, s'.c);
      WriteSide(s'.c.w, s'.c.countMw, o'.wlen, o'.wbeats)
  {
    StepShape(s.c, CtlIn(rm, wm, s.pins.dout));
    var rcall := Cycle(s, rm, wm).1;
    WriteSideNext(s.c.w, s.c.countMw, o.wlen, o.wbeats, wm,
                  WriteDev(!rcall.DevRead? && !ReadEffects(s.c, rcall, rm.raddr.len).pending, true, false));
  }

  lemma ReadAlignedStep(s: Sys, o: Obs, rm: ReadMa, wm: WriteMa<Word>)
    requires SysCore(s, o) && RequestsOk(rm, wm)
    ensures
      var c' := Cycle(s, rm, wm).0.c;
      c'.r.st == RAddr ==> Aligned(c'.r.addr, c'.r.size)
  {
    StepShape(s.c, CtlIn(rm, wm, s.pins.dout));
  }

  /** A read access shows the addressed bytes, and leaves memory as it was. */
  lemma AccessShows(a: nat, size: nat, k: nat, m: MPin, dout: Word, mem: Store)
    requires mem.Valid() && |m.dout| == |dout| == BUS && Aligned(a, size)
    requires m.cs && !m.we && m.addr == BeatAddr(a, size, k) && m.size == size
    requires OutPins(m, dout).Valid()
    ensures Shows(a, size, k, Update(mem, OutPins(m, dout)).1.dout, Update(mem, OutPins(m, dout)).0)
  {
    var p := OutPins(m, dout);
    var (mem', p') := Update(mem, p);
    forall i | 0 <= i < Pow2(size) ensures Lanes(m.addr, size, p'.dout)[i] == mem'.Peek(m.addr + i) {
      UpdateReads(mem, p, i);
      UpdateWrites(mem, p, m.addr + i);
    }
  }

  /** The read side: two cycles after an address went out, its lanes are on the data pins. */
  lemma ShowsStep(s: Sys, o: Obs, rm: ReadMa, wm: WriteMa<Word>)
    requires SysCore(s, o) && RequestsOk(rm, wm)
    ensures
      var (s', rcall, wcall) := Cycle(s, rm, wm);
      var k := Observe(o.r, rm, rcall, s'.c).calls;
      |s'.pins.dout| == BUS && (Reading(s'.c.r) && k >= 2 ==> Shows(s'.c.r.addr, s'.c.r.size, k - 2, s'.pins.dout, s'.mem))
  {
    var x := CtlIn(rm, wm, s.pins.dout);
    StepShape(s.c, x);
    CtlInvStep(s.c, o.r, x);
    if Reading(s.c.r) && 1 <= o.r.calls <= o.r.len + 1 {
      AccessShows(s.c.r.addr, s.c.r.size, o.r.calls - 1, s.c.mpin, s.pins.dout, s.mem);
    }
  }

  lemma SysInvStep(s: Sys, o: Obs, rm: ReadMa, wm: WriteMa<Word>)
    requires SysCore(s, o) && RequestsOk(rm, wm)
    ensures
      var (s', rcall, wcall) := Cycle(s, rm, wm);
      SysInv(s', ObserveAll(o, rm, wm, rcall, wcall, s'.c))
  {
    CtlInvStep(s.c, o.r, CtlIn(rm, wm, s.pins.dout));
    AgreeStep(s, o, rm, wm);
    WriteSideStep(s, o, rm, wm);
    ReadAlignedStep(s, o, rm, wm);
    ShowsStep(s, o, rm, wm);
  }

  lemma ShowsSame(a: nat, size: nat, k: nat, word: Word, mem: Store, arch: Store)
    requires mem.Valid() && arch.Valid() && |word| == BUS && Shows(a, size, k, word, mem)
    requires forall b: nat :: arch.Peek(b) == mem.Peek(b)
    ensures Shows(a, size, k, word, arch)
  {
  }

  /** While a burst is read no write is on its way, so the lanes on the pins show the reference memory. */
  lemma ShowsReference(s: Sys, o: Obs)
    requires SysInv(s, o) && Reading(s.c.r) && o.r.calls >= 2
    ensures o.r.beats == o.r.calls - 2 && Shows(s.c.r.addr, s.c.r.size, o.r.beats, s.pins.dout, o.arch)
  {
    forall b: nat ensures o.arch.Peek(b) == s.mem.Peek(b) {
      assert o.arch.Peek(b) == Settled(s.c.mpin, s.mem, b);
    }
    ShowsSame(s.c.r.addr, s.c.r.size, o.r.calls - 2, s.pins.dout, s.mem, o.arch);
  }

  /** Every write beat reaches the reference memory at its place in the burst: beat j at addr + (j << size). */
  lemma WriteBeatApplied(s: Sys, o: Obs, rm: ReadMa, wm: WriteMa<Word>)
    requires SysCore(s, o) && RequestsOk(rm, wm)
    ensures
      var (s', rcall, wcall) := Cycle(s, rm, wm);
      var o' := ObserveAll(o, rm, wm, rcall, wcall, s'.c);
      var b := BeatAddr(s.c.w.addr, s.c.w.size, o.wbeats);
      if wcall.DevWrite?
      then Aligned(b, s.c.w.size) && o'.wbeats == o.wbeats + 1 &&
           forall a: nat :: o'.arch.Peek(a) == if b <= a < b + Pow2(s.c.w.size)
                                               then Lanes(b, s.c.w.size, wm.data)[a - b] else o.arch.Peek(a)
      else o'.arch == o.arch
  {
    var wcall := Cycle(s, rm, wm).2;
    PinsStep(s, o, rm, wm);
    if wcall.DevWrite? {
      var size := s.c.w.size;
      var b := BeatAddr(s.c.w.addr, size, o.wbeats);
      AlignedFits(b, size);
      forall a: nat ensures o.arch.Poke(b, Lanes(b, size, wm.data)).Peek(a) ==
        if b <= a < b + Pow2(size) then Lanes(b, size, wm.data)[a - b] else o.arch.Peek(a)
      {
        PeekPoke(o.arch, b, Lanes(b, size, wm.data), a);
      }
    }
  }

  // ----- The host writes to memory while the controller runs -----

  /** Accesses of the host: words and bytes, never through the controller's pins. */
  ghost predicate HostOps(ops: seq<MemOp>) {
    forall k :: 0 <= k < |ops| ==> ops[k].Valid() && !ops[k].Access?
  }

  ghost function HostSys(s: Sys, host: seq<MemOp>): Sys
    requires s.mem.Valid() && HostOps(host)
  {
    s.(mem := ApplyAll(s.mem, host))
  }

  /** The host's part of the reference memory: its writes take effect at once, except that a write beat still on the
      registered pins goes over them. */
  ghost function HostArch(arch: Store, m: MPin, host: seq<MemOp>): (r: Store)
    requires arch.Valid() && HostOps(host) && |m.dout| == BUS && (m.cs ==> Aligned(m.addr, m.size))
    ensures r.Valid()
  {
    var now := ApplyAll(arch, host);
    if host != [] && m.cs && m.we then
      AlignedFits(m.addr, m.size);
      now.Poke(m.addr, Lanes(m.addr, m.size, m.dout))
    else now
  }

  ghost function HostObs(o: Obs, m: MPin, host: seq<MemOp>): Obs
    requires o.arch.Valid() && HostOps(host) && |m.dout| == BUS && (m.cs ==> Aligned(m.addr, m.size))
  {
    o.(arch := HostArch(o.arch, m, host))
  }

  lemma BeatOver(m: MPin, mem: Store, now: Store, a: nat)
    requires mem.Valid() && now.Valid() && |m.dout| == BUS && Aligned(m.addr, m.size) && m.cs && m.we
    requires m.addr % PAGE + Pow2(m.size) <= PAGE && (!Covers(m, a) ==> now.Peek(a) == mem.Peek(a))
    ensures now.Poke(m.addr, Lanes(m.addr, m.size, m.dout)).Peek(a) == Settled(m, mem, a)
  {
    PeekPoke(now, m.addr, Lanes(m.addr, m.size, m.dout), a);
  }

  lemma HostAgree(m: MPin, mem: Store, arch: Store, host: seq<MemOp>, a: nat)
    requires mem.Valid() && arch.Valid() && |m.dout| == BUS && (m.cs ==> Aligned(m.addr, m.size)) && HostOps(host)
    requires arch.Peek(a) == Settled(m, mem, a)
    ensures HostArch(arch, m, host).Peek(a) == Settled(m, ApplyAll(mem, host), a)
  {
    HostSame(mem, arch, host, a);
    if host != [] && m.cs && m.we {
      AlignedFits(m.addr, m.size);
      BeatOver(m, ApplyAll(mem, host), ApplyAll(arch, host), a);
    }
  }

  lemma HostSame(mem: Store, arch: Store, host: seq<MemOp>, a: nat)
    requires mem.Valid() && arch.Valid() && HostOps(host)
    ensures mem.Peek(a) == arch.Peek(a) ==> ApplyAll(mem, host).Peek(a) == ApplyAll(arch, host).Peek(a)
    ensures host == [] ==> ApplyAll(mem, host) == mem && ApplyAll(arch, host) == arch
  {
    FlatRefinement(mem, host, a);
    FlatRefinement(arch, host, a);
  }

  lemma HostStep(s: Sys, o: Obs, host: seq<MemOp>)
    requires SysCore(s, o) && HostOps(host)
    ensures SysCore(HostSys(s, host), HostObs(o, s.c.mpin, host))
  {
    forall a: nat ensures HostArch(o.arch, s.c.mpin, host).Peek(a) == Settled(s.c.mpin, ApplyAll(s.mem, host), a) {
      HostAgree(s.c.mpin, s.mem, o.arch, host, a);
    }
  }

  /** What the next cycle leaves at address a. */
  lemma CycleWrites(s: Sys, rm: ReadMa, wm: WriteMa<Word>, a: nat)
    requires Wf(s)
    ensures Cycle(s, rm, wm).0.mem.Valid() && Cycle(s, rm, wm).0.mem.Peek(a) == Settled(s.c.mpin, s.mem, a)
  {
    UpdateWrites(s.mem, OutPins(s.c.mpin, s.pins.dout), a);
  }

  lemma HostWrites(s: Sys, host: seq<MemOp>, a: nat, d: Byte)
    requires Wf(s) && HostOps(host) && forall b :: LastWritten(b, host, a) == d
    ensures Wf(HostSys(s, host)) && HostSys(s, host).c == s.c && HostSys(s, host).mem.Peek(a) == d
  {
    FlatRefinement(s.mem, host, a);
  }

  /** Exactly when a host write is lost: the byte d that the host wrote last at address a is in memory after the next
      cycle if and only if no write beat on the registered pins covers a, or that beat has the same byte there. */
  lemma HostWriteKeptIff(s: Sys, host: seq<MemOp>, rm: ReadMa, wm: WriteMa<Word>, a: nat, d: Byte)
    requires Wf(s) && HostOps(host) && forall b :: LastWritten(b, host, a) == d
    ensures
      var m := s.c.mpin;
      && Wf(HostSys(s, host)) && HostSys(s, host).mem.Peek(a) == d
      && Cycle(HostSys(s, host), rm, wm).0.mem.Valid()
      && (Cycle(HostSys(s, host), rm, wm).0.mem.Peek(a) == d <==>
          !Covers(m, a) || Lanes(m.addr, m.size, m.dout)[a - m.addr] == d)
  {
    HostWrites(s, host, a, d);
    CycleWrites(HostSys(s, host), rm, wm, a);
  }

  // ----- Every run -----

  /** Between two cycles the host makes its accesses. */
  datatype SysIn = SysIn(host: seq<MemOp>, rm: ReadMa, wm: WriteMa<Word>) {
    ghost predicate Ok() {
      HostOps(host) && RequestsOk(rm, wm)
    }
  }

  /** The host's accesses, then a cycle. */
  ghost function SysStep(s: Sys, o: Obs, x: SysIn): (Sys, Obs, ReadCall<Word>, WriteCall<Word>)
    requires Wf(s) && o.arch.Valid() && HostOps(x.host)
  {
    var s1, o1 := HostSys(s, x.host), HostObs(o, s.c.mpin, x.host);
    var (s', rcall, wcall) := Cycle(s1, x.rm, x.wm);
    (s', ObserveAll(o1, x.rm, x.wm, rcall, wcall, s'.c), rcall, wcall)
  }

  lemma SysStepInv(s: Sys, o: Obs, x: SysIn)
    requires SysCore(s, o) && x.Ok()
    ensures SysInv(SysStep(s, o, x).0, SysStep(s, o, x).1)
  {
    HostStep(s, o, x.host);
    SysInvStep(HostSys(s, x.host), HostObs(o, s.c.mpin, x.host), x.rm, x.wm);
  }

  /** Reset, with any contents of memory. */
  ghost function SysStart(mem: Store): (r: (Sys, Obs))
    requires mem.Valid()
    ensures SysInv(r.0, r.1)
  {
    (Sys(CtlReset(), OutPins(CtlReset().mpin, Zero()), mem), Obs(RObs(0, 0, 0, 0), mem, 0, 0))
  }

  /** The system and the observer after a run from reset. */
  ghost function SysRun(mem: Store, xs: seq<SysIn>): (r: (Sys, Obs))
    requires mem.Valid() && forall n :: 0 <= n < |xs| ==> xs[n].Ok()
    ensures SysInv(r.0, r.1)
  {
    if xs == [] then SysStart(mem)
    else
      var (s, o) := SysRun(mem, xs[..|xs| - 1]);
      SysStepInv(s, o, xs[|xs| - 1]);
      var (s', o', _, _) := SysStep(s, o, xs[|xs| - 1]);
      (s', o')
  }

  /** The beat that the next cycle delivers, in any state that keeps the invariant. */
  lemma BeatShowsReference(s: Sys, o: Obs, x: SysIn)
    requires SysInv(s, o) && x.Ok()
    ensures
      var (s', _, rcall, _) := SysStep(s, o, x);
      rcall.DevRead? && rcall.ok ==>
        && s'.c.r.out.valid && s'.c.r.out.data == rcall.data && |rcall.data| == BUS
        && rcall.addr == s.c.r.addr && rcall.size == s.c.r.size && o.r.beats <= o.r.len
        && Shows(s.c.r.addr, s.c.r.size, o.r.beats, rcall.data, o.arch)
        && Shows(s.c.r.addr, s.c.r.size, o.r.beats, rcall.data, s.mem)
  {
    StepShape(s.c, CtlIn(x.rm, x.wm, s.pins.dout));
    if Reading(s.c.r) && o.r.calls >= 2 { ShowsReference(s, o); }
  }

  /** Pipelined burst reads: after any run from any memory, for any aligned requests and any host accesses between the
      cycles, the beat delivered in the next cycle (the j-th of its burst) carries, in the addressed lanes, the bytes
      at addr + (j << size) that memory held in the cycle that had this address on the pins; and memory was then the
      reference memory, with every write beat accepted and every host write made up to then in it. */
  lemma PipelinedReads(mem: Store, xs: seq<SysIn>, x: SysIn)
    requires mem.Valid() && x.Ok() && forall n :: 0 <= n < |xs| ==> xs[n].Ok()
    ensures
      var (s, o) := SysRun(mem, xs);
      var (s', _, rcall, _) := SysStep(s, o, x);
      rcall.DevRead? && rcall.ok ==>
        && s'.c.r.out.valid && s'.c.r.out.data == rcall.data && |rcall.data| == BUS
        && rcall.addr == s.c.r.addr && rcall.size == s.c.r.size && o.r.beats <= o.r.len
        && Shows(s.c.r.addr, s.c.r.size, o.r.beats, rcall.data, o.arch)
        && Shows(s.c.r.addr, s.c.r.size, o.r.beats, rcall.data, s.mem)
  {
    BeatShowsReference(SysRun(mem, xs).0, SysRun(mem, xs).1, x);
  }
}
