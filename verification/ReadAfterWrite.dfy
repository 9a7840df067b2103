/** Reads and writes of memory through both directions of the crossbar: the read fabric and the write fabric over one
    memory controller and its memory. Every change of memory is logged, and so is, for every write beat, its place in
    the log, and for every read beat the length of the log when it was read. What masters start, what the other devices
    answer and the host's own accesses are arbitrary. */
module ReadAfterWrite {
  import opened Arith
  import opened Axi
  import opened Master
  import opened Slave
  import opened Crossbar
  import opened Memory
  import C = MemCtl
  import F = ReadFabric
  import J = MemFabric
  import W = WriteFabric
  import Runs

  // ----- The log -----

  /** A write beat as an operation on memory. */
  function BeatOp(b: nat, size: nat, data: Word): MemOp {
    Access(Pins(b, size, true, true, data, data))
  }

  /** Host accesses; a write beat still on the registered pins goes over them. */
  ghost function HostEvents(m: C.MPin, host: seq<MemOp>): seq<MemOp> {
    host + if host != [] && m.cs && m.we then [BeatOp(m.addr, m.size, m.dout)] else []
  }

  /** The beat that a cycle writes, if any; `beats` is its index in the burst. */
  ghost function BeatEvents(call: WriteCall<Word>, beats: nat): seq<MemOp> {
    match call
    case DevWrite(a, size, _, data) =>
      var b := C.BeatAddr(a, size, beats);
      if Aligned(b, size) && |data| == BUS then [BeatOp(b, size, data)] else []
    case _ => []
  }

  ghost predicate AllValid(ops: seq<MemOp>) {
    forall k :: 0 <= k < |ops| ==> ops[k].Valid()
  }

  lemma ValidConcat(xs: seq<MemOp>, ys: seq<MemOp>)
    requires AllValid(xs) && AllValid(ys)
    ensures AllValid(xs + ys)
  {
  }

  lemma {:induction false} ApplyOne(st: Store, b: nat, size: nat, data: Word)
    requires st.Valid() && Aligned(b, size) && |data| == BUS && b % PAGE + Pow2(size) <= PAGE
    ensures AllValid([BeatOp(b, size, data)])
    ensures ApplyAll(st, [BeatOp(b, size, data)]) == st.Poke(b, Lanes(b, size, data))
  {
    var op := BeatOp(b, size, data);
    assert [op][..0] == [];
    assert ApplyAll(st, []) == st;
  }

  lemma HostLogged(arch: Store, m: C.MPin, host: seq<MemOp>)
    requires arch.Valid() && C.HostOps(host) && |m.dout| == BUS && (m.cs ==> Aligned(m.addr, m.size))
    ensures AllValid(HostEvents(m, host)) && C.HostArch(arch, m, host) == ApplyAll(arch, HostEvents(m, host))
  {
    if host != [] && m.cs && m.we {
      AlignedFits(m.addr, m.size);
      ApplyOne(ApplyAll(arch, host), m.addr, m.size, m.dout);
      ApplyConcat(arch, host, [BeatOp(m.addr, m.size, m.dout)]);
    } else {
      assert HostEvents(m, host) == host;
    }
  }

  lemma BeatLogged(o: C.Obs, rm: ReadMa, wm: WriteMa<Word>, rcall: ReadCall<Word>, wcall: WriteCall<Word>, c': C.Ctl)
    requires o.arch.Valid()
    ensures AllValid(BeatEvents(wcall, o.wbeats))
    ensures C.ObserveAll(o, rm, wm, rcall, wcall, c').arch == ApplyAll(o.arch, BeatEvents(wcall, o.wbeats))
  {
    if wcall.DevWrite? {
      var b := C.BeatAddr(wcall.addr, wcall.size, o.wbeats);
      if Aligned(b, wcall.size) && |wcall.data| == BUS {
        AlignedFits(b, wcall.size);
        ApplyOne(o.arch, b, wcall.size, wcall.data);
      }
    }
  }

  /** All changes of one step of controller and memory. */
  ghost function Events(s: C.Sys, o: C.Obs, x: C.SysIn): seq<MemOp>
    requires C.Wf(s) && o.arch.Valid() && C.HostOps(x.host)
  {
    HostEvents(s.c.mpin, x.host) + BeatEvents(C.SysStep(s, o, x).3, o.wbeats)
  }

  /** The reference memory after a step is the one before it with the changes applied. */
  lemma StepLogged(s: C.Sys, o: C.Obs, x: C.SysIn)
    requires C.Wf(s) && o.arch.Valid() && C.HostOps(x.host)
    ensures AllValid(Events(s, o, x)) && C.SysStep(s, o, x).1.arch == ApplyAll(o.arch, Events(s, o, x))
  {
    var s1, o1 := C.HostSys(s, x.host), C.HostObs(o, s.c.mpin, x.host);
    HostLogged(o.arch, s.c.mpin, x.host);
    var (s', rcall, wcall) := C.Cycle(s1, x.rm, x.wm);
    BeatLogged(o1, x.rm, x.wm, rcall, wcall, s'.c);
    ApplyConcat(o.arch, HostEvents(s.c.mpin, x.host), BeatEvents(wcall, o.wbeats));
  }

  // ----- The system -----

  /** `marks` has, per master, the places in the log of the beats of its current (or last) write; `cuts` the lengths of
      the log when the beats of its current (or last) read were read. */
  datatype Full = Full(p: J.Joint, w: W.Fabric<Word>, log: seq<MemOp>, marks: seq<seq<nat>>, cuts: seq<seq<nat>>)

  datatype FullIn = FullIn(c: F.Cyc<Word>, wc: W.Cyc<Word>, host: seq<MemOp>)

  /** What slave j sees of the owner of its write channels. */
  ghost function WriteOut(g: Config<Word>, w: W.Fabric<Word>, c: W.Cyc<Word>, j: nat): WriteMa<Word>
    requires W.Sized(g, w) && W.SizedCyc(g, c) && j < g.slaves
  {
    var owner := Owner(w.h, W.Wires(g, w, c), j);
    if owner.Some? && owner.value < g.masters then W.StepMaster(g, w, c, owner.value).out else WriteMaReset(g.zero)
  }

  ghost predicate Formed(g: Config<Word>, j: nat, q: Full) {
    J.Formed(g, j, q.p) && W.Sized(g, q.w) && |q.marks| == |q.cuts| == g.masters
  }

  ghost predicate Shaped(g: Config<Word>, x: FullIn) {
    F.SizedCyc(g, x.c) && W.SizedCyc(g, x.wc) && C.HostOps(x.host)
  }

  ghost function Below(g: Config<Word>, j: nat, q: Full, x: FullIn): J.JointIn
    requires Formed(g, j, q) && Shaped(g, x)
  {
    J.JointIn(x.c, WriteOut(g, q.w, x.wc, j), x.host)
  }

  ghost function SysInput(g: Config<Word>, j: nat, q: Full, x: FullIn): C.SysIn
    requires Formed(g, j, q) && Shaped(g, x)
  {
    J.SysInOf(g, q.p.f, Below(g, j, q, x), j)
  }

  /** The write answers of the controller in this cycle. */
  function WriteReply(c: C.Ctl, rm: ReadMa, din: Word): WriteDev {
    var rcall := ReadStep(c.r, rm, C.ReadAnswers(c, din), C.Zero()).1;
    WriteDev(!rcall.DevRead? && !C.ReadEffects(c, rcall, rm.raddr.len).pending, true, false)
  }

  function NextMarks(marks: seq<nat>, m: MWrite<Word>, start: Option<Op>, beat: bool, at: nat): seq<nat> {
    var base := if !m.busy && start.Some? then [] else marks;
    if beat then base + [at] else base
  }

  function NextCuts(cuts: seq<nat>, m: MRead, start: Option<Op>, beat: bool, at: nat): seq<nat> {
    var base := if !m.busy && start.Some? then [] else cuts;
    if beat then base + [at] else base
  }

  /** Slave j writes a beat of master i. */
  ghost predicate WritesFor(g: Config<Word>, j: nat, q: Full, x: FullIn, i: nat)
    requires Formed(g, j, q) && Shaped(g, x) && i < g.masters
  {
    Conn(q.w.h, W.Wires(g, q.w, x.wc), i) == Some(j) && W.StepSlave(g, q.w, x.wc, j).1.DevWrite?
  }

  ghost function MarksAfter(g: Config<Word>, j: nat, q: Full, x: FullIn, i: nat): seq<nat>
    requires Formed(g, j, q) && Shaped(g, x) && i < g.masters
  {
    NextMarks(q.marks[i], q.w.m[i], x.wc.start[i], WritesFor(g, j, q, x, i),
              |q.log| + |HostEvents(q.p.s.c.mpin, x.host)|)
  }

  ghost function CutsAfter(g: Config<Word>, j: nat, q: Full, x: FullIn, i: nat): seq<nat>
    requires Formed(g, j, q) && Shaped(g, x) && i < g.masters
  {
    NextCuts(q.cuts[i], q.p.f.m[i], x.c.start[i], J.BeatFor(g, q.p, Below(g, j, q, x), j, i), |q.log|)
  }

  /** One cycle of both fabrics, the controller and its memory. */
  ghost function FullStep(g: Config<Word>, j: nat, q: Full, x: FullIn): Full
    requires Formed(g, j, q) && Shaped(g, x)
  {
    Full(J.JointStep(g, j, q.p, Below(g, j, q, x)), W.Tick(g, q.w, x.wc),
         q.log + Events(q.p.s, q.p.o, SysInput(g, j, q, x)),
         seq(g.masters, i requires 0 <= i < g.masters => MarksAfter(g, j, q, x, i)),
         seq(g.masters, i requires 0 <= i < g.masters => CutsAfter(g, j, q, x, i)))
  }

  /** One cycle's inputs: at slave j the devices of both directions are the controller; the other devices are steady and
      take the beats of a burst; what goes to memory is an aligned burst of at most sixteen beats. */
  ghost predicate InputOk(g: Config<Word>, j: nat, q: Full, x: FullIn) {
    && Formed(g, j, q) && Shaped(g, x)
    && x.c.dev[j] == C.ReadAnswers(q.p.s.c, q.p.s.pins.dout)
    && x.wc.dev[j] == WriteReply(q.p.s.c, J.OwnerOut(g, q.p.f, x.c, j), q.p.s.pins.dout)
    && (forall k :: 0 <= k < g.slaves && k != j ==> F.Steady(q.p.f.s[k], x.c.dev[k]))
    && (forall k :: 0 <= k < g.slaves && k != j ==> W.Taking(q.w.s[k], x.wc.dev[k]))
    && (forall i :: 0 <= i < g.masters && x.c.start[i].Some? ==> J.OpOk(g, j, x.c.start[i].value))
    && (forall i :: 0 <= i < g.masters && x.wc.start[i].Some? ==> J.OpOk(g, j, x.wc.start[i].value))
    && (forall i :: 0 <= i < g.masters ==> |x.wc.dout[i]| == BUS)
  }

  // ----- The invariant -----

  /** Read beat k was read when the log had length cuts[k]. */
  ghost predicate CutOk(mem: Store, log: seq<MemOp>, mems: seq<Store>, cuts: seq<nat>, k: nat)
    requires mem.Valid() && AllValid(log) && k < |mems| == |cuts|
  {
    cuts[k] <= |log| && mems[k] == ApplyAll(mem, log[..cuts[k]])
  }

  ghost predicate CutsOk(mem: Store, log: seq<MemOp>, mems: seq<Store>, cuts: seq<nat>)
    requires mem.Valid() && AllValid(log)
  {
    |mems| == |cuts| && forall k :: 0 <= k < |mems| ==> CutOk(mem, log, mems, cuts, k)
  }

  /** Write beat k is entry marks[k] of the log. */
  ghost predicate MarkOk(log: seq<MemOp>, h: W.Hist<Word>, marks: seq<nat>, k: nat)
    requires k < |marks| == |h.vals|
  {
    marks[k] < |log| && log[marks[k]] == BeatOp(C.BeatAddr(h.op.addr, h.op.size, k), h.op.size, h.vals[k])
  }

  ghost predicate MarksOk(log: seq<MemOp>, h: W.Hist<Word>, marks: seq<nat>) {
    |marks| == |h.vals| && forall k :: 0 <= k < |h.vals| ==> MarkOk(log, h, marks, k)
  }

  /** A write that goes to memory: its beats so far, and the controller's place in the burst. */
  ghost predicate WriteLink(g: Config<Word>, j: nat, log: seq<MemOp>, h: W.Hist<Word>, marks: seq<nat>, owns: bool,
                            st: WPhase, beats: nat) {
    h.started && g.decode(h.op.addr) == j ==>
      && h.op.len <= 15 && Aligned(h.op.addr, h.op.size) && MarksOk(log, h, marks)
      && (owns && (st == WAddrData || st == WBurst) ==> beats == |h.vals|)
  }

  ghost predicate WriterOk(g: Config<Word>, j: nat, q: Full, i: nat)
    requires Formed(g, j, q) && i < g.masters
  {
    && |q.w.m[i].out.data| == BUS
    && WriteLink(g, j, q.log, q.w.hist[i], q.marks[i], PeerOf(q.w.h, i) == Some(j), q.p.s.c.w.st, q.p.o.wbeats)
  }

  ghost predicate LogOk(mem: Store, q: Full) {
    mem.Valid() && AllValid(q.log) && q.p.o.arch == ApplyAll(mem, q.log)
  }

  ghost predicate FullInv(g: Config<Word>, j: nat, mem: Store, q: Full) {
    && Formed(g, j, q) && J.JointInv(g, j, q.p) && W.Inv(g, q.w) && q.w.s[j] == q.p.s.c.w && LogOk(mem, q)
    && (forall i :: 0 <= i < g.masters ==> CutsOk(mem, q.log, q.p.src[i].mems, q.cuts[i]))
    && (forall i :: 0 <= i < g.masters ==> WriterOk(g, j, q, i))
  }

  // ----- One cycle -----

  /** A longer log keeps what was recorded. */
  lemma CutsKept(mem: Store, log: seq<MemOp>, more: seq<MemOp>, mems: seq<Store>, cuts: seq<nat>)
    requires mem.Valid() && AllValid(log) && AllValid(more) && CutsOk(mem, log, mems, cuts)
    ensures AllValid(log + more) && CutsOk(mem, log + more, mems, cuts)
  {
    ValidConcat(log, more);
    forall k | 0 <= k < |mems| ensures CutOk(mem, log + more, mems, cuts, k) {
      assert CutOk(mem, log, mems, cuts, k);
      assert (log + more)[..cuts[k]] == log[..cuts[k]];
    }
  }

  /** A read beat is recorded with the log as it is. */
  lemma CutAdded(mem: Store, log: seq<MemOp>, mems: seq<Store>, cuts: seq<nat>, arch: Store)
    requires mem.Valid() && AllValid(log) && CutsOk(mem, log, mems, cuts) && arch == ApplyAll(mem, log)
    ensures CutsOk(mem, log, mems + [arch], cuts + [|log|])
  {
    var mems', cuts' := mems + [arch], cuts + [|log|];
    assert log[..|log|] == log;
    forall k | 0 <= k < |mems'| ensures CutOk(mem, log, mems', cuts', k) {
      assert k < |mems| ==> CutOk(mem, log, mems, cuts, k);
    }
  }

  lemma MarksKept(log: seq<MemOp>, more: seq<MemOp>, h: W.Hist<Word>, marks: seq<nat>, h': W.Hist<Word>)
    requires MarksOk(log, h, marks) && h'.op == h.op && h'.vals == h.vals
    ensures MarksOk(log + more, h', marks)
  {
    forall k | 0 <= k < |h'.vals| ensures MarkOk(log + more, h', marks, k) {
      assert MarkOk(log, h, marks, k);
    }
  }

  /** A write beat is recorded at its place. */
  lemma MarkAdded(log: seq<MemOp>, host: seq<MemOp>, h: W.Hist<Word>, marks: seq<nat>, h': W.Hist<Word>, data: Word)
    requires MarksOk(log, h, marks) && h'.op == h.op && h'.vals == h.vals + [data]
    ensures
      var op := BeatOp(C.BeatAddr(h.op.addr, h.op.size, |h.vals|), h.op.size, data);
      MarksOk(log + (host + [op]), h', marks + [|log| + |host|])
  {
    var op := BeatOp(C.BeatAddr(h.op.addr, h.op.size, |h.vals|), h.op.size, data);
    var log', marks' := log + (host + [op]), marks + [|log| + |host|];
    forall k | 0 <= k < |h'.vals| ensures MarkOk(log', h', marks', k) {
      assert k < |h.vals| ==> MarkOk(log, h, marks, k);
    }
  }

  lemma DataSized(m: MWrite<Word>, start: Option<Op>, dout: Word, sl: WriteSl, zero: Word)
    requires |m.out.data| == |dout| == |zero| == BUS
    ensures |MWriteStep(m, start, dout, sl, zero).out.data| == BUS
  {
  }

  /** What a connected master puts on its write channels is its operation, and that is one for memory. */
  lemma WriteRequestOk(g: Config<Word>, j: nat, mem: Store, q: Full, x: FullIn, i: nat)
    requires FullInv(g, j, mem, q) && InputOk(g, j, q, x) && i < g.masters
    requires Conn(q.w.h, W.Wires(g, q.w, x.wc), i) == Some(j)
    ensures
      var out := W.StepMaster(g, q.w, x.wc, i).out;
      |out.data| == BUS && (out.waddr.valid ==> out.waddr.len <= 15 && Aligned(out.waddr.addr, out.waddr.size))
  {
    assert W.LinkOk(g, q.w, i) && WriterOk(g, j, q, i);
    Connection(q.w.h, W.Wires(g, q.w, x.wc), i);
    if x.wc.start[i].Some? { assert J.OpOk(g, j, x.wc.start[i].value); }
    DataSized(q.w.m[i], x.wc.start[i], x.wc.dout[i], q.w.win[i], g.zero);
  }

  /** So the inputs of the part below are as that part expects them. */
  lemma BelowOk(g: Config<Word>, j: nat, mem: Store, q: Full, x: FullIn)
    requires FullInv(g, j, mem, q) && InputOk(g, j, q, x)
    ensures J.InputOk(g, j, q.p, Below(g, j, q, x)) && SysInput(g, j, q, x).Ok()
  {
    var w := W.Wires(g, q.w, x.wc);
    Ownership(q.w.h, w, j);
    var owner := Owner(q.w.h, w, j);
    if owner.Some? { WriteRequestOk(g, j, mem, q, x, owner.value); }
    J.SysInOk(g, j, q.p, Below(g, j, q, x));
  }

  /** Slave j of the write fabric and the controller's write machine make the same step. */
  lemma WriterIsController(g: Config<Word>, j: nat, mem: Store, q: Full, x: FullIn)
    requires FullInv(g, j, mem, q) && InputOk(g, j, q, x)
    ensures
      var (s', _, _, wcall) := C.SysStep(q.p.s, q.p.o, SysInput(g, j, q, x));
      W.StepSlave(g, q.w, x.wc, j) == (s'.c.w, wcall)
  {
    var y := SysInput(g, j, q, x);
    C.StepShape(q.p.s.c, C.CtlIn(y.rm, y.wm, q.p.s.pins.dout));
  }

  lemma WritesAccepted(g: Config<Word>, j: nat, mem: Store, q: Full, x: FullIn)
    requires FullInv(g, j, mem, q) && InputOk(g, j, q, x)
    ensures W.Accepting(g, q.w, x.wc)
  {
    forall k | 0 <= k < g.slaves ensures W.Taking(q.w.s[k], x.wc.dev[k]) {
    }
  }

  /** What a step of controller and memory means for a write burst. */
  ghost predicate WriteBurst(c: C.Ctl, o: C.Obs, host: seq<MemOp>, wm: WriteMa<Word>, events: seq<MemOp>, o': C.Obs,
                             call: WriteCall<Word>) {
    match call
    case NoWrite => o'.wbeats == o.wbeats
    case WriteSetup(accepted) => o'.wbeats == if accepted then 0 else o.wbeats
    case DevWrite(a, size, ok, data) =>
      && a == c.w.addr && size == c.w.size && ok && data == wm.data && o'.wbeats == o.wbeats + 1
      && events == HostEvents(c.mpin, host) + [BeatOp(C.BeatAddr(a, size, o.wbeats), size, data)]
  }

  lemma SysWriteBurst(s: C.Sys, o: C.Obs, x: C.SysIn)
    requires C.SysInv(s, o) && x.Ok()
    ensures
      var (s', o', _, wcall) := C.SysStep(s, o, x);
      WriteBurst(s.c, o, x.host, x.wm, Events(s, o, x), o', wcall)
  {
    C.HostStep(s, o, x.host);
    var s1, o1 := C.HostSys(s, x.host), C.HostObs(o, s.c.mpin, x.host);
    C.PinsStep(s1, o1, x.rm, x.wm);
    var wcall := C.SysStep(s, o, x).3;
    if wcall.DevWrite? { C.BeatAligned(wcall.addr, wcall.size, o.wbeats); }
  }

  /** A write that is connected to the controller. */
  lemma ConnectedWrite(g: Config<Word>, j: nat, log: seq<MemOp>, m: MWrite<Word>, win: WriteSl, h: W.Hist<Word>,
                       peer: Option<nat>, marks: seq<nat>, c: C.Ctl, o: C.Obs, start: Option<Op>, dout: Word,
                       host: seq<MemOp>, events: seq<MemOp>, dev: WriteDev, o': C.Obs)
    requires W.LinkInv(g, m, win, h, peer, c.w) && dev.ok
    requires WriteLink(g, j, log, h, marks, peer == Some(j), c.w.st, o.wbeats) && (start.Some? ==> J.OpOk(g, j, start.value))
    requires
      var m' := MWriteStep(m, start, dout, win, g.zero);
      && (peer == Some(j) ||
          (peer == None && W.IdleSlave(c.w) && m'.out.waddr.valid && g.decode(m'.out.waddr.addr) == j))
      && WriteBurst(c, o, host, m'.out, events, o', WriteStep(c.w, m'.out, dev).1)
    ensures
      var m' := MWriteStep(m, start, dout, win, g.zero);
      var (s', call) := WriteStep(c.w, m'.out, dev);
      var ends := m'.out.resReady && c.w.out.resValid;
      WriteLink(g, j, log + events, W.Observe(h, m, start, dout, win, j, call, s'.out),
                NextMarks(marks, m, start, call.DevWrite?, |log| + |HostEvents(c.mpin, host)|), !ends, s'.st, o'.wbeats)
  {
    var m' := MWriteStep(m, start, dout, win, g.zero);
    var (s', call) := WriteStep(c.w, m'.out, dev);
    var h' := W.Observe(h, m, start, dout, win, j, call, s'.out);
    if call.DevWrite? {
      MarkAdded(log, HostEvents(c.mpin, host), h, marks, h', call.data);
    } else if m.busy {
      MarksKept(log, events, h, marks, h');
    }
  }

  /** A write that is not: it adds no beat there. */
  lemma OtherWrite(g: Config<Word>, j: nat, log: seq<MemOp>, m: MWrite<Word>, win: WriteSl, h: W.Hist<Word>,
                   peer: Option<nat>, marks: seq<nat>, start: Option<Op>, dout: Word, events: seq<MemOp>, k: nat,
                   call: WriteCall<Word>, out: WriteSl, ws: WriteFsm, dev: WriteDev, st: WPhase, beats: nat, st': WPhase,
                   beats': nat)
    requires W.LinkInv(g, m, win, h, peer, ws) && peer != Some(j)
    requires WriteLink(g, j, log, h, marks, false, st, beats) && (start.Some? ==> J.OpOk(g, j, start.value))
    requires call.NoWrite? ||
             (call == WriteStep(ws, MWriteStep(m, start, dout, win, g.zero).out, dev).1 &&
              (peer == Some(k) || (peer == None && W.IdleSlave(ws))))
    ensures WriteLink(g, j, log + events, W.Observe(h, m, start, dout, win, k, call, out),
                      NextMarks(marks, m, start, false, 0), false, st', beats')
  {
    var h' := W.Observe(h, m, start, dout, win, k, call, out);
    if h.started && g.decode(h.op.addr) == j && !(!m.busy && start.Some?) {
      MarksKept(log, events, h, marks, h');
    }
  }

  /** The write cycle as a master connected to slave k sees it. */
  ghost predicate Viewed(g: Config<Word>, w: W.Fabric<Word>, c: W.Cyc<Word>, i: nat, k: nat)
    requires W.Sized(g, w) && W.SizedCyc(g, c) && i < g.masters && k < g.slaves
  {
    var out, peer := W.StepMaster(g, w, c, i).out, PeerOf(w.h, i);
    && W.StepSlave(g, w, c, k) == WriteStep(w.s[k], out, c.dev[k]) && WriteOut(g, w, c, k) == out
    && W.StepHist(g, w, c, i) ==
       W.Observe(w.hist[i], w.m[i], c.start[i], c.dout[i], w.win[i], k, W.StepSlave(g, w, c, k).1,
                 W.StepSlave(g, w, c, k).0.out)
    && W.LinkInv(g, w.m[i], w.win[i], w.hist[i], peer, w.s[k])
    && (peer == Some(k) ||
        (peer == None && W.IdleSlave(w.s[k]) && out.waddr.valid && g.decode(out.waddr.addr) == k))
    && PeerOf(Crossbar.Step(w.h, W.Wires(g, w, c)), i) ==
       (if out.resReady && w.s[k].out.resValid then None else Some(k))
  }

  lemma WriteView(g: Config<Word>, w: W.Fabric<Word>, c: W.Cyc<Word>, i: nat, k: nat)
    requires W.Inv(g, w) && W.SizedCyc(g, c) && i < g.masters && Conn(w.h, W.Wires(g, w, c), i) == Some(k)
    ensures k < g.slaves && Viewed(g, w, c, i, k)
  {
    Connection(w.h, W.Wires(g, w, c), i);
    assert W.LinkOk(g, w, i) && W.SlaveOk(g, w, k);
  }

  /** The entries of writer i after a step. */
  lemma WriterAfter(g: Config<Word>, j: nat, q: Full, x: FullIn, i: nat)
    requires Formed(g, j, q) && Shaped(g, x) && i < g.masters
    ensures
      var q' := FullStep(g, j, q, x);
      && W.Sized(g, q'.w) && |q'.marks| == g.masters
      && q'.w.m[i] == W.StepMaster(g, q.w, x.wc, i) && q'.w.hist[i] == W.StepHist(g, q.w, x.wc, i)
      && PeerOf(q'.w.h, i) == PeerOf(Crossbar.Step(q.w.h, W.Wires(g, q.w, x.wc)), i)
      && q'.marks[i] == MarksAfter(g, j, q, x, i)
      && q'.log == q.log + Events(q.p.s, q.p.o, SysInput(g, j, q, x))
  {
  }

  /** The link of writer i after a step. */
  ghost predicate WriterNext(g: Config<Word>, j: nat, q: Full, x: FullIn, i: nat)
    requires Formed(g, j, q) && Shaped(g, x) && i < g.masters
  {
    var (s', o', _, _) := C.SysStep(q.p.s, q.p.o, SysInput(g, j, q, x));
    WriteLink(g, j, q.log + Events(q.p.s, q.p.o, SysInput(g, j, q, x)), W.StepHist(g, q.w, x.wc, i),
              MarksAfter(g, j, q, x, i), PeerOf(Crossbar.Step(q.w.h, W.Wires(g, q.w, x.wc)), i) == Some(j),
              s'.c.w.st, o'.wbeats)
  }

  lemma WriterUnconnected(g: Config<Word>, j: nat, mem: Store, q: Full, x: FullIn, i: nat)
    requires FullInv(g, j, mem, q) && InputOk(g, j, q, x) && i < g.masters
    requires Conn(q.w.h, W.Wires(g, q.w, x.wc), i) == None
    ensures WriterNext(g, j, q, x, i)
  {
    assert W.LinkOk(g, q.w, i) && WriterOk(g, j, q, i);
    if x.wc.start[i].Some? { assert J.OpOk(g, j, x.wc.start[i].value); }
    Connection(q.w.h, W.Wires(g, q.w, x.wc), i);
    var y := SysInput(g, j, q, x);
    var (s', o', _, _) := C.SysStep(q.p.s, q.p.o, y);
    OtherWrite(g, j, q.log, q.w.m[i], q.w.win[i], q.w.hist[i], None, q.marks[i], x.wc.start[i], x.wc.dout[i],
               Events(q.p.s, q.p.o, y), 0, NoWrite, WRITE_SL_RESET, WRITE_RESET, x.wc.dev[j],
               q.p.s.c.w.st, q.p.o.wbeats, s'.c.w.st, o'.wbeats);
  }

  lemma WriterElsewhere(g: Config<Word>, j: nat, mem: Store, q: Full, x: FullIn, i: nat, k: nat)
    requires FullInv(g, j, mem, q) && InputOk(g, j, q, x) && i < g.masters && k != j
    requires Conn(q.w.h, W.Wires(g, q.w, x.wc), i) == Some(k)
    ensures WriterNext(g, j, q, x, i)
  {
    assert WriterOk(g, j, q, i);
    if x.wc.start[i].Some? { assert J.OpOk(g, j, x.wc.start[i].value); }
    WriteView(g, q.w, x.wc, i, k);
    var y := SysInput(g, j, q, x);
    var (s', o', _, _) := C.SysStep(q.p.s, q.p.o, y);
    var (t', call) := W.StepSlave(g, q.w, x.wc, k);
    OtherWrite(g, j, q.log, q.w.m[i], q.w.win[i], q.w.hist[i], PeerOf(q.w.h, i), q.marks[i], x.wc.start[i], x.wc.dout[i],
               Events(q.p.s, q.p.o, y), k, call, t'.out, q.w.s[k], x.wc.dev[k],
               q.p.s.c.w.st, q.p.o.wbeats, s'.c.w.st, o'.wbeats);
  }

  /** What the step means for the write burst at slave j. */
  lemma WriteBurstAfter(g: Config<Word>, j: nat, mem: Store, q: Full, x: FullIn)
    requires FullInv(g, j, mem, q) && InputOk(g, j, q, x)
    ensures
      var y := SysInput(g, j, q, x);
      var (s', o', _, _) := C.SysStep(q.p.s, q.p.o, y);
      && W.StepSlave(g, q.w, x.wc, j).0 == s'.c.w && x.wc.dev[j].ok
      && WriteBurst(q.p.s.c, q.p.o, x.host, WriteOut(g, q.w, x.wc, j), Events(q.p.s, q.p.o, y), o',
                    W.StepSlave(g, q.w, x.wc, j).1)
  {
    BelowOk(g, j, mem, q, x);
    WriterIsController(g, j, mem, q, x);
    SysWriteBurst(q.p.s, q.p.o, SysInput(g, j, q, x));
  }

  /** The entries of a writer on memory. */
  lemma EntriesOnMemory(g: Config<Word>, j: nat, q: Full, x: FullIn, i: nat)
    requires Formed(g, j, q) && Shaped(g, x) && i < g.masters && Viewed(g, q.w, x.wc, i, j)
    requires Conn(q.w.h, W.Wires(g, q.w, x.wc), i) == Some(j)
    ensures
      var (t', call) := W.StepSlave(g, q.w, x.wc, j);
      var out := WriteOut(g, q.w, x.wc, j);
      && W.StepHist(g, q.w, x.wc, i) ==
         W.Observe(q.w.hist[i], q.w.m[i], x.wc.start[i], x.wc.dout[i], q.w.win[i], j, call, t'.out)
      && MarksAfter(g, j, q, x, i) == NextMarks(q.marks[i], q.w.m[i], x.wc.start[i], call.DevWrite?,
                                                |q.log| + |HostEvents(q.p.s.c.mpin, x.host)|)
      && (PeerOf(Crossbar.Step(q.w.h, W.Wires(g, q.w, x.wc)), i) == Some(j) <==> !(out.resReady && q.w.s[j].out.resValid))
  {
  }

  /** The same cycle, in terms of the master's own step. */
  ghost predicate Seen(g: Config<Word>, j: nat, q: Full, x: FullIn, i: nat, events: seq<MemOp>, o': C.Obs)
    requires Formed(g, j, q) && Shaped(g, x) && i < g.masters
  {
    var m', c, peer := MWriteStep(q.w.m[i], x.wc.start[i], x.wc.dout[i], q.w.win[i], g.zero), q.p.s.c, PeerOf(q.w.h, i);
    && W.LinkInv(g, q.w.m[i], q.w.win[i], q.w.hist[i], peer, c.w)
    && (peer == Some(j) ||
        (peer == None && W.IdleSlave(c.w) && m'.out.waddr.valid && g.decode(m'.out.waddr.addr) == j))
    && WriteBurst(c, q.p.o, x.host, m'.out, events, o', WriteStep(c.w, m'.out, x.wc.dev[j]).1)
  }

  lemma BurstSeen(g: Config<Word>, j: nat, q: Full, x: FullIn, i: nat, events: seq<MemOp>, o': C.Obs)
    requires Formed(g, j, q) && Shaped(g, x) && i < g.masters && q.w.s[j] == q.p.s.c.w && Viewed(g, q.w, x.wc, i, j)
    requires WriteBurst(q.p.s.c, q.p.o, x.host, WriteOut(g, q.w, x.wc, j), events, o', W.StepSlave(g, q.w, x.wc, j).1)
    ensures Seen(g, j, q, x, i, events, o')
  {
  }

  lemma LinkOnMemory(g: Config<Word>, j: nat, q: Full, x: FullIn, i: nat, events: seq<MemOp>, o': C.Obs)
    requires Formed(g, j, q) && Shaped(g, x) && i < g.masters && Seen(g, j, q, x, i, events, o')
    requires WriteLink(g, j, q.log, q.w.hist[i], q.marks[i], PeerOf(q.w.h, i) == Some(j), q.p.s.c.w.st, q.p.o.wbeats)
    requires x.wc.dev[j].ok && (x.wc.start[i].Some? ==> J.OpOk(g, j, x.wc.start[i].value))
    ensures
      var m' := MWriteStep(q.w.m[i], x.wc.start[i], x.wc.dout[i], q.w.win[i], g.zero);
      var (t', call) := WriteStep(q.p.s.c.w, m'.out, x.wc.dev[j]);
      WriteLink(g, j, q.log + events,
                W.Observe(q.w.hist[i], q.w.m[i], x.wc.start[i], x.wc.dout[i], q.w.win[i], j, call, t'.out),
                NextMarks(q.marks[i], q.w.m[i], x.wc.start[i], call.DevWrite?,
                          |q.log| + |HostEvents(q.p.s.c.mpin, x.host)|),
                !(m'.out.resReady && q.p.s.c.w.out.resValid), t'.st, o'.wbeats)
  {
    ConnectedWrite(g, j, q.log, q.w.m[i], q.w.win[i], q.w.hist[i], PeerOf(q.w.h, i), q.marks[i], q.p.s.c, q.p.o,
                   x.wc.start[i], x.wc.dout[i], x.host, events, x.wc.dev[j], o');
  }

  lemma WriterOnMemory(g: Config<Word>, j: nat, mem: Store, q: Full, x: FullIn, i: nat)
    requires FullInv(g, j, mem, q) && InputOk(g, j, q, x) && i < g.masters
    requires Conn(q.w.h, W.Wires(g, q.w, x.wc), i) == Some(j)
    ensures WriterNext(g, j, q, x, i)
  {
    var y := SysInput(g, j, q, x);
    WriteBurstAfter(g, j, mem, q, x);
    WriteView(g, q.w, x.wc, i, j);
    assert WriterOk(g, j, q, i);
    if x.wc.start[i].Some? { assert J.OpOk(g, j, x.wc.start[i].value); }
    BurstSeen(g, j, q, x, i, Events(q.p.s, q.p.o, y), C.SysStep(q.p.s, q.p.o, y).1);
    LinkOnMemory(g, j, q, x, i, Events(q.p.s, q.p.o, y), C.SysStep(q.p.s, q.p.o, y).1);
    EntriesOnMemory(g, j, q, x, i);
  }

  lemma WriterNextHolds(g: Config<Word>, j: nat, mem: Store, q: Full, x: FullIn, i: nat)
    requires FullInv(g, j, mem, q) && InputOk(g, j, q, x) && i < g.masters
    ensures WriterNext(g, j, q, x, i)
  {
    match Conn(q.w.h, W.Wires(g, q.w, x.wc), i)
    case None => WriterUnconnected(g, j, mem, q, x, i);
    case Some(k) => if k == j { WriterOnMemory(g, j, mem, q, x, i); } else { WriterElsewhere(g, j, mem, q, x, i, k); }
  }

  lemma SystemAfter(g: Config<Word>, j: nat, q: Full, x: FullIn)
    requires Formed(g, j, q) && Shaped(g, x)
    ensures
      var q', (s', o', _, _) := FullStep(g, j, q, x), C.SysStep(q.p.s, q.p.o, SysInput(g, j, q, x));
      q'.p.s == s' && q'.p.o == o'
  {
  }

  lemma WriterStep(g: Config<Word>, j: nat, mem: Store, q: Full, x: FullIn, i: nat, q': Full)
    requires FullInv(g, j, mem, q) && InputOk(g, j, q, x) && i < g.masters
    requires q' == FullStep(g, j, q, x) && Formed(g, j, q')
    ensures WriterOk(g, j, q', i)
  {
    WriterNextHolds(g, j, mem, q, x, i);
    WriterAfter(g, j, q, x, i);
    SystemAfter(g, j, q, x);
    WriterData(g, j, mem, q, x, i);
  }

  lemma WriterData(g: Config<Word>, j: nat, mem: Store, q: Full, x: FullIn, i: nat)
    requires FullInv(g, j, mem, q) && InputOk(g, j, q, x) && i < g.masters
    ensures |W.StepMaster(g, q.w, x.wc, i).out.data| == BUS
  {
    assert WriterOk(g, j, q, i);
    DataSized(q.w.m[i], x.wc.start[i], x.wc.dout[i], q.w.win[i], g.zero);
  }

  /** The reads recorded for master i after a step. */
  lemma CutsGrow(mem: Store, log: seq<MemOp>, events: seq<MemOp>, src: J.Source, cuts: seq<nat>, m: MRead,
                 start: Option<Op>, beat: bool, arch: Store, host: bool)
    requires mem.Valid() && AllValid(log) && AllValid(events) && CutsOk(mem, log, src.mems, cuts)
    requires arch == ApplyAll(mem, log)
    ensures AllValid(log + events)
    ensures CutsOk(mem, log + events, J.NextSource(src, m, start, beat, arch, host).mems,
                   NextCuts(cuts, m, start, beat, |log|))
  {
    var starts := !m.busy && start.Some?;
    var mems, prior := if starts then [] else src.mems, if starts then [] else cuts;
    if beat {
      CutAdded(mem, log, mems, prior, arch);
      CutsKept(mem, log, events, mems + [arch], prior + [|log|]);
    } else {
      CutsKept(mem, log, events, mems, prior);
    }
  }

  lemma CutsStep(g: Config<Word>, j: nat, mem: Store, q: Full, x: FullIn, i: nat)
    requires FullInv(g, j, mem, q) && InputOk(g, j, q, x) && i < g.masters
    ensures
      var q' := FullStep(g, j, q, x);
      AllValid(q'.log) && |q'.p.src| == |q'.cuts| == g.masters && CutsOk(mem, q'.log, q'.p.src[i].mems, q'.cuts[i])
  {
    var y := SysInput(g, j, q, x);
    StepLogged(q.p.s, q.p.o, y);
    CutsGrow(mem, q.log, Events(q.p.s, q.p.o, y), q.p.src[i], q.cuts[i], q.p.f.m[i], x.c.start[i],
             J.BeatFor(g, q.p, Below(g, j, q, x), j, i), q.p.o.arch, x.host != []);
  }

  lemma LogStep(g: Config<Word>, j: nat, mem: Store, q: Full, x: FullIn)
    requires FullInv(g, j, mem, q) && InputOk(g, j, q, x)
    ensures LogOk(mem, FullStep(g, j, q, x))
  {
    var y := SysInput(g, j, q, x);
    StepLogged(q.p.s, q.p.o, y);
    ApplyConcat(mem, q.log, Events(q.p.s, q.p.o, y));
    ValidConcat(q.log, Events(q.p.s, q.p.o, y));
  }

  lemma FullInvStep(g: Config<Word>, j: nat, mem: Store, q: Full, x: FullIn)
    requires FullInv(g, j, mem, q) && InputOk(g, j, q, x)
    ensures FullInv(g, j, mem, FullStep(g, j, q, x))
  {
    var q' := FullStep(g, j, q, x);
    BelowOk(g, j, mem, q, x);
    J.JointInvStep(g, j, q.p, Below(g, j, q, x));
    WritesAccepted(g, j, mem, q, x);
    W.TickInv(g, q.w, x.wc);
    WriterIsController(g, j, mem, q, x);
    LogStep(g, j, mem, q, x);
    J.InvFormed(g, j, q'.p);
    forall i | 0 <= i < g.masters ensures CutsOk(mem, q'.log, q'.p.src[i].mems, q'.cuts[i]) {
      CutsStep(g, j, mem, q, x, i);
    }
    forall i | 0 <= i < g.masters ensures WriterOk(g, j, q', i) { WriterStep(g, j, mem, q, x, i, q'); }
  }

  // ----- Every run from reset -----

  ghost function FullStart(g: Config<Word>, mem: Store): Full
    requires g.Valid() && mem.Valid()
  {
    Full(J.JointStart(g, mem), W.Start(g), [], seq(g.masters, _ => []), seq(g.masters, _ => []))
  }

  ghost predicate Stepped(g: Config<Word>, j: nat, q: Full, x: FullIn, q': Full) {
    InputOk(g, j, q, x) && q' == FullStep(g, j, q, x)
  }

  ghost function Moves(g: Config<Word>, j: nat): (Full, FullIn, Full) -> bool {
    (q, x, q') => Stepped(g, j, q, x, q')
  }

  /** The states of a run from reset, with any contents of memory. */
  ghost predicate FullRun(g: Config<Word>, j: nat, mem: Store, qs: seq<Full>, xs: seq<FullIn>) {
    && g.Valid() && g.zero == C.Zero() && j < g.slaves && mem.Valid()
    && Runs.Run(Moves(g, j), qs, xs) && qs[0] == FullStart(g, mem)
  }

  lemma FullStartOk(g: Config<Word>, j: nat, mem: Store)
    requires g.Valid() && g.zero == C.Zero() && j < g.slaves && mem.Valid()
    ensures FullInv(g, j, mem, FullStart(g, mem))
  {
    var q := FullStart(g, mem);
    J.JointStartOk(g, j, mem);
    J.InvFormed(g, j, q.p);
    W.ReachInv(g, []);
    assert W.Reach(g, []) == q.w;
    forall i | 0 <= i < g.masters ensures WriterOk(g, j, q, i) {}
  }

  lemma SteppedInv(g: Config<Word>, j: nat, mem: Store, q: Full, x: FullIn, q': Full)
    requires FullInv(g, j, mem, q) && Stepped(g, j, q, x, q')
    ensures FullInv(g, j, mem, q')
  {
    FullInvStep(g, j, mem, q, x);
  }

  lemma MovesKeep(g: Config<Word>, j: nat, mem: Store)
    ensures Runs.Keeps(Moves(g, j), q => FullInv(g, j, mem, q))
  {
    forall q, x, q' | FullInv(g, j, mem, q) && Stepped(g, j, q, x, q') ensures FullInv(g, j, mem, q') {
      SteppedInv(g, j, mem, q, x, q');
    }
  }

  lemma FullAlways(g: Config<Word>, j: nat, mem: Store, qs: seq<Full>, xs: seq<FullIn>, k: nat)
    requires FullRun(g, j, mem, qs, xs) && k < |qs|
    ensures FullInv(g, j, mem, qs[k])
  {
    FullStartOk(g, j, mem);
    MovesKeep(g, j, mem);
    Runs.Onwards(Moves(g, j), q => FullInv(g, j, mem, q), qs, xs, 0, k);
  }

  /** Every run can go on: all its states are well formed. */
  lemma RunFormed(g: Config<Word>, j: nat, mem: Store, qs: seq<Full>, xs: seq<FullIn>, k: nat)
    requires FullRun(g, j, mem, qs, xs) && k < |qs|
    ensures Formed(g, j, qs[k])
  {
    FullAlways(g, j, mem, qs, xs, k);
  }

  lemma LogGrows(g: Config<Word>, j: nat, qs: seq<Full>, xs: seq<FullIn>, m: nat, k: nat)
    requires Runs.Run(Moves(g, j), qs, xs) && m <= k < |qs|
    ensures qs[m].log <= qs[k].log
  {
    var log := qs[m].log;
    forall q: Full, x, q' | log <= q.log && Stepped(g, j, q, x, q') ensures log <= q'.log {
      assert q'.log == q.log + Events(q.p.s, q.p.o, SysInput(g, j, q, x));
    }
    Runs.Onwards(Moves(g, j), (q: Full) => log <= q.log, qs, xs, m, k);
  }

  /** Every beat recorded for master i was read when the log had at least n entries. */
  ghost predicate Late(q: Full, i: nat, n: nat) {
    i < |q.cuts| && n <= |q.log| && forall k :: 0 <= k < |q.cuts[i]| ==> n <= q.cuts[i][k]
  }

  lemma LateCuts(cuts: seq<nat>, m: MRead, start: Option<Op>, beat: bool, at: nat, n: nat)
    requires n <= at && ((!m.busy && start.Some?) || forall k :: 0 <= k < |cuts| ==> n <= cuts[k])
    ensures forall k :: 0 <= k < |NextCuts(cuts, m, start, beat, at)| ==> n <= NextCuts(cuts, m, start, beat, at)[k]
  {
  }

  /** What a step records of the reads of master i. */
  lemma CutsOf(g: Config<Word>, j: nat, q: Full, x: FullIn, q': Full, i: nat) returns (beat: bool)
    requires Stepped(g, j, q, x, q') && i < g.masters
    ensures i < |q.cuts| && i < |q'.cuts| && i < |q.p.f.m| && i < |x.c.start| && |q.log| <= |q'.log|
    ensures q'.cuts[i] == NextCuts(q.cuts[i], q.p.f.m[i], x.c.start[i], beat, |q.log|)
  {
    beat := J.BeatFor(g, q.p, Below(g, j, q, x), j, i);
  }

  lemma LateKept(g: Config<Word>, j: nat, q: Full, x: FullIn, q': Full, i: nat, n: nat)
    requires Stepped(g, j, q, x, q') && i < g.masters && n <= |q.log|
    requires Late(q, i, n) || (!q.p.f.m[i].busy && x.c.start[i].Some?)
    ensures Late(q', i, n)
  {
    var beat := CutsOf(g, j, q, x, q', i);
    LateCuts(q.cuts[i], q.p.f.m[i], x.c.start[i], beat, |q.log|, n);
  }

  lemma LateKeeps(g: Config<Word>, j: nat, i: nat, n: nat)
    requires i < g.masters
    ensures Runs.Keeps(Moves(g, j), q => Late(q, i, n))
  {
    forall q, x, q' | Late(q, i, n) && Stepped(g, j, q, x, q') ensures Late(q', i, n) {
      LateKept(g, j, q, x, q', i, n);
    }
  }

  lemma LateFirst(g: Config<Word>, j: nat, qs: seq<Full>, xs: seq<FullIn>, m: nat, i: nat)
    requires Runs.Run(Moves(g, j), qs, xs) && m < |xs| && i < g.masters
    requires i < |qs[m].p.f.m| && !qs[m].p.f.m[i].busy && i < |xs[m].c.start| && xs[m].c.start[i].Some?
    ensures Late(qs[m + 1], i, |qs[m].log|)
  {
    Runs.Here(Moves(g, j), qs, xs, m);
    LateKept(g, j, qs[m], xs[m], qs[m + 1], i, |qs[m].log|);
  }

  /** The beats of a read that starts in cycle m are read later than that. */
  lemma ReadsLater(g: Config<Word>, j: nat, qs: seq<Full>, xs: seq<FullIn>, m: nat, k: nat, i: nat)
    requires Runs.Run(Moves(g, j), qs, xs) && m < k < |qs| && i < g.masters
    requires i < |qs[m].p.f.m| && !qs[m].p.f.m[i].busy && i < |xs[m].c.start| && xs[m].c.start[i].Some?
    ensures Late(qs[k], i, |qs[m].log|)
  {
    var n := |qs[m].log|;
    LateFirst(g, j, qs, xs, m, i);
    LateKeeps(g, j, i, n);
    Runs.Onwards(Moves(g, j), q => Late(q, i, n), qs, xs, m + 1, k);
  }

  // ----- Read after write -----

  /** The finished write of master i went to memory; its beat k covers address a. */
  ghost predicate Written(g: Config<Word>, j: nat, q: Full, i: nat, k: nat, a: nat) {
    && Formed(g, j, q) && i < g.masters
    && var h := q.w.hist[i];
       && h.started && !q.w.m[i].busy && g.decode(h.op.addr) == j && k <= h.op.len
       && C.BeatAddr(h.op.addr, h.op.size, k) <= a < C.BeatAddr(h.op.addr, h.op.size, k) + Pow2(h.op.size)
  }

  /** The finished read of master i was from memory; its beat k covers address a. */
  ghost predicate Latched(g: Config<Word>, j: nat, q: Full, i: nat, k: nat, a: nat) {
    && Formed(g, j, q) && i < g.masters
    && var h := q.p.f.hist[i];
       && h.started && !q.p.f.m[i].busy && g.decode(h.op.addr) == j && k <= h.op.len
       && C.BeatAddr(h.op.addr, h.op.size, k) <= a < C.BeatAddr(h.op.addr, h.op.size, k) + Pow2(h.op.size)
  }

  /** v is the byte that the word of beat k of an operation has for address a. */
  ghost predicate ByteOf(op: Op, words: seq<Word>, k: nat, a: nat, v: Byte) {
    var b := C.BeatAddr(op.addr, op.size, k);
    && k < |words| && |words[k]| == BUS && Aligned(b, op.size) && b <= a < b + Pow2(op.size)
    && v == Lanes(b, op.size, words[k])[a - b]
  }

  /** A finished write is in the log, beat by beat. */
  lemma WriteInLog(g: Config<Word>, j: nat, mem: Store, q: Full, i: nat, k: nat, a: nat) returns (v: Byte)
    requires FullInv(g, j, mem, q) && Written(g, j, q, i, k, a)
    ensures ByteOf(q.w.hist[i].op, q.w.hist[i].sent, k, a, v)
    ensures k < |q.marks[i]| && q.marks[i][k] < |q.log| && q.log[q.marks[i][k]].Valid()
    ensures q.log[q.marks[i][k]].Writes(a) == Some(v)
  {
    assert W.LinkOk(g, q.w, i) && WriterOk(g, j, q, i);
    var h := q.w.hist[i];
    assert MarkOk(q.log, h, q.marks[i], k);
    var b := C.BeatAddr(h.op.addr, h.op.size, k);
    assert q.log[q.marks[i][k]].Valid();
    v := Lanes(b, h.op.size, h.vals[k])[a - b];
  }

  /** A finished read shows the memory it was read from ... */
  lemma ReadShows(g: Config<Word>, j: nat, q: Full, i: nat, k: nat, a: nat) returns (u: Byte)
    requires J.JointInv(g, j, q.p) && Latched(g, j, q, i, k, a)
    ensures ByteOf(q.p.f.hist[i].op, q.p.f.hist[i].got, k, a, u)
    ensures k < |q.p.src[i].mems| && q.p.src[i].mems[k].Valid() && u == q.p.src[i].mems[k].Peek(a)
  {
    assert F.LinkOk(g, q.p.f, i) && J.MasterOk(g, j, q.p, i);
    var h, src := q.p.f.hist[i], q.p.src[i];
    assert J.BeatShows(h, src, k);
    var b := C.BeatAddr(h.op.addr, h.op.size, k);
    u := Lanes(b, h.op.size, h.vals[k])[a - b];
    assert u == src.mems[k].Peek(b + (a - b));
  }

  /** ... and so the log as it was. */
  lemma ReadFromLog(g: Config<Word>, j: nat, mem: Store, q: Full, i: nat, k: nat, a: nat) returns (u: Byte)
    requires FullInv(g, j, mem, q) && Latched(g, j, q, i, k, a)
    ensures ByteOf(q.p.f.hist[i].op, q.p.f.hist[i].got, k, a, u)
    ensures k < |q.cuts[i]| && q.cuts[i][k] <= |q.log| && u == LastWritten(mem.Peek(a), q.log[..q.cuts[i][k]], a)
  {
    u := ReadShows(g, j, q, i, k, a);
    assert CutsOk(mem, q.log, q.p.src[i].mems, q.cuts[i]);
    assert CutOk(mem, q.log, q.p.src[i].mems, q.cuts[i], k);
    FlatRefinement(mem, q.log[..q.cuts[i][k]], a);
  }

  lemma LastAfter(base: Byte, log: seq<MemOp>, mark: nat, cut: nat, a: nat, v: Byte)
    requires AllValid(log) && mark < cut <= |log| && log[mark].Writes(a) == Some(v)
    ensures AllValid(log[mark + 1..cut])
    ensures LastWritten(base, log[..cut], a) == LastWritten(v, log[mark + 1..cut], a)
  {
    var early, late := log[..mark + 1], log[mark + 1..cut];
    assert log[..cut] == early + late;
    LastConcat(base, early, late, a);
    assert early[|early| - 1] == log[mark];
  }

  lemma {:induction false} NoneWritten(base: Byte, ops: seq<MemOp>, a: nat)
    requires AllValid(ops) && forall k :: 0 <= k < |ops| ==> ops[k].Writes(a).None?
    ensures LastWritten(base, ops, a) == base
  {
    if ops == [] {
    } else {
      NoneWritten(base, ops[..|ops| - 1], a);
    }
  }

  /** Both, in a run. */
  lemma WriteRecorded(g: Config<Word>, j: nat, mem: Store, qs: seq<Full>, xs: seq<FullIn>, m: nat, i: nat, k: nat, a: nat)
    returns (v: Byte, mark: nat)
    requires FullRun(g, j, mem, qs, xs) && m < |qs| && Written(g, j, qs[m], i, k, a)
    ensures ByteOf(qs[m].w.hist[i].op, qs[m].w.hist[i].sent, k, a, v)
    ensures k < |qs[m].marks[i]| && mark == qs[m].marks[i][k]
    ensures mark < |qs[m].log| && qs[m].log[mark].Valid() && qs[m].log[mark].Writes(a) == Some(v)
  {
    FullAlways(g, j, mem, qs, xs, m);
    v := WriteInLog(g, j, mem, qs[m], i, k, a);
    mark := qs[m].marks[i][k];
  }

  lemma ReadRecorded(g: Config<Word>, j: nat, mem: Store, qs: seq<Full>, xs: seq<FullIn>, t: nat, i: nat, k: nat, a: nat)
    returns (u: Byte, cut: nat)
    requires FullRun(g, j, mem, qs, xs) && t < |qs| && Latched(g, j, qs[t], i, k, a)
    ensures ByteOf(qs[t].p.f.hist[i].op, qs[t].p.f.hist[i].got, k, a, u)
    ensures k < |qs[t].cuts[i]| && cut == qs[t].cuts[i][k] && AllValid(qs[t].log)
    ensures cut <= |qs[t].log| && u == LastWritten(mem.Peek(a), qs[t].log[..cut], a)
  {
    FullAlways(g, j, mem, qs, xs, t);
    u := ReadFromLog(g, j, mem, qs[t], i, k, a);
    cut := qs[t].cuts[i][k];
  }

  /** A read that starts when the log has this entry is cut behind it. */
  lemma InOrder(g: Config<Word>, j: nat, qs: seq<Full>, xs: seq<FullIn>, m: nat, n: nat, t: nat, i: nat, mark: nat)
    requires Runs.Run(Moves(g, j), qs, xs) && m <= n < t < |qs| && i < g.masters && mark < |qs[m].log|
    requires i < |qs[n].p.f.m| && !qs[n].p.f.m[i].busy && i < |xs[n].c.start| && xs[n].c.start[i].Some?
    ensures mark < |qs[t].log| && qs[t].log[mark] == qs[m].log[mark]
    ensures i < |qs[t].cuts| && forall k :: 0 <= k < |qs[t].cuts[i]| ==> mark < qs[t].cuts[i][k]
  {
    LogGrows(g, j, qs, xs, m, t);
    LogGrows(g, j, qs, xs, m, n);
    ReadsLater(g, j, qs, xs, n, t, i);
  }

  /** What the log says between a write beat and a read beat. */
  lemma Between(base: Byte, log: seq<MemOp>, mark: nat, cut: nat, a: nat, v: Byte, u: Byte)
    requires AllValid(log) && mark < cut <= |log| && log[mark].Writes(a) == Some(v)
    requires u == LastWritten(base, log[..cut], a)
    ensures AllValid(log[mark + 1..cut]) && u == LastWritten(v, log[mark + 1..cut], a)
    ensures (forall k :: mark < k < cut ==> log[k].Writes(a).None?) ==> u == v
  {
    LastAfter(base, log, mark, cut, a, v);
    if forall k :: mark < k < cut ==> log[k].Writes(a).None? {
      NoneWritten(v, log[mark + 1..cut], a);
    }
  }

  /** Read after write: in any run, let a write to memory be finished in state m, and let a master start a read of memory
      in cycle n, not before, that is finished in state t. Then, at every address that both cover, the byte the reader
      has latched is the one the writer sent, or the last one that the log has for this address between the two
      beats: so it is the writer's byte unless it was overwritten in between. */
  lemma ReadsSeeWrites(g: Config<Word>, j: nat, mem: Store, qs: seq<Full>, xs: seq<FullIn>, m: nat, iw: nat, kw: nat,
                       n: nat, t: nat, ir: nat, kr: nat, a: nat)
    returns (v: Byte, u: Byte, mark: nat, cut: nat)
    requires FullRun(g, j, mem, qs, xs) && m <= n < t < |qs|
    requires Written(g, j, qs[m], iw, kw, a) && Latched(g, j, qs[t], ir, kr, a)
    requires ir < |qs[n].p.f.m| && !qs[n].p.f.m[ir].busy && ir < |xs[n].c.start| && xs[n].c.start[ir].Some?
    ensures ByteOf(qs[m].w.hist[iw].op, qs[m].w.hist[iw].sent, kw, a, v)
    ensures ByteOf(qs[t].p.f.hist[ir].op, qs[t].p.f.hist[ir].got, kr, a, u)
    ensures kw < |qs[m].marks[iw]| && mark == qs[m].marks[iw][kw] && kr < |qs[t].cuts[ir]| && cut == qs[t].cuts[ir][kr]
    ensures AllValid(qs[t].log) && mark < cut <= |qs[t].log| && AllValid(qs[t].log[mark + 1..cut])
    ensures u == LastWritten(v, qs[t].log[mark + 1..cut], a)
    ensures (forall k :: mark < k < cut ==> qs[t].log[k].Writes(a).None?) ==> u == v
  {
    v, mark := WriteRecorded(g, j, mem, qs, xs, m, iw, kw, a);
    u, cut := ReadRecorded(g, j, mem, qs, xs, t, ir, kr, a);
    InOrder(g, j, qs, xs, m, n, t, ir, mark);
    Between(mem.Peek(a), qs[t].log, mark, cut, a, v, u);
  }
}
