/** Reads of memory end to end: the read fabric with the memory controller, and the memory behind it, as one of its
    slaves. What masters start, what the other devices answer, the writes that reach the controller and the host's own
    accesses are arbitrary. */
module MemFabric {
  import opened Axi
  import opened Master
  import opened Slave
  import opened Crossbar
  import opened Memory
  import Runs
  import C = MemCtl
  import F = ReadFabric

  /** Per master, what the observer keeps of its current (or last) operation: the memory each beat was read from, and
      whether the host has left memory alone since the first beat. */
  datatype Source = Source(mems: seq<Store>, quiet: bool)

  /** The fabric, the controller at slave j with its memory and observer, and the sources. */
  datatype Joint = Joint(f: F.Fabric<Word>, s: C.Sys, o: C.Obs, src: seq<Source>)

  datatype JointIn = JointIn(c: F.Cyc<Word>, wm: WriteMa<Word>, host: seq<MemOp>)

  /** What slave j sees of its owner. */
  ghost function OwnerOut(g: Config<Word>, f: F.Fabric<Word>, c: F.Cyc<Word>, j: nat): ReadMa
    requires F.Sized(g, f) && F.SizedCyc(g, c) && j < g.slaves
  {
    var owner := Owner(f.h, F.Wires(g, f, c), j);
    if owner.Some? && owner.value < g.masters then F.StepMaster(f, c, owner.value).out else READ_MA_RESET
  }

  ghost function SysInOf(g: Config<Word>, f: F.Fabric<Word>, x: JointIn, j: nat): C.SysIn
    requires F.Sized(g, f) && F.SizedCyc(g, x.c) && j < g.slaves
  {
    C.SysIn(x.host, OwnerOut(g, f, x.c, j), x.wm)
  }

  /** An operation that goes to memory is an aligned burst of at most sixteen beats. */
  ghost predicate OpOk(g: Config<Word>, j: nat, op: Op) {
    g.decode(op.addr) == j ==> op.len <= 15 && Aligned(op.addr, op.size)
  }

  /** One cycle's inputs: the device of slave j answers as the controller does, the other devices are steady. */
  ghost predicate InputOk(g: Config<Word>, j: nat, p: Joint, x: JointIn) {
    && F.Sized(g, p.f) && F.SizedCyc(g, x.c) && j < g.slaves
    && x.c.dev[j] == C.ReadAnswers(p.s.c, p.s.pins.dout)
    && (forall k :: 0 <= k < g.slaves && k != j ==> F.Steady(p.f.s[k], x.c.dev[k]))
    && (forall i :: 0 <= i < g.masters && x.c.start[i].Some? ==> OpOk(g, j, x.c.start[i].value))
    && (x.wm.waddr.valid ==> x.wm.waddr.len <= 15 && Aligned(x.wm.waddr.addr, x.wm.waddr.size))
    && |x.wm.data| == BUS && C.HostOps(x.host)
  }

  /** A beat read for this master adds the reference memory it was read from. */
  function NextSource(src: Source, m: MRead, start: Option<Op>, beat: bool, arch: Store, host: bool): Source {
    var base := if !m.busy && start.Some? then Source([], true) else src;
    var mems := if beat then base.mems + [arch] else base.mems;
    Source(mems, base.quiet && !(host && mems != []))
  }

  ghost function BeatFor(g: Config<Word>, p: Joint, x: JointIn, j: nat, i: nat): bool
    requires F.Sized(g, p.f) && F.SizedCyc(g, x.c) && j < g.slaves && i < g.masters
  {
    var call := F.StepSlave(g, p.f, x.c, j).1;
    Conn(p.f.h, F.Wires(g, p.f, x.c), i) == Some(j) && call.DevRead? && call.ok
  }

  // ----- The invariant -----

  /** Beat k shows the memory it was read from; without host accesses that is one memory for the whole burst. */
  ghost predicate BeatsShow(h: F.Hist<Word>, src: Source) {
    && |src.mems| == |h.vals|
    && (forall k :: 0 <= k < |h.vals| ==> BeatShows(h, src, k))
    && (src.quiet ==> forall k :: 0 <= k < |src.mems| ==> src.mems[k] == src.mems[0])
  }

  ghost predicate BeatShows(h: F.Hist<Word>, src: Source, k: nat)
    requires k < |h.vals| == |src.mems|
  {
    src.mems[k].Valid() && |h.vals[k]| == BUS && C.Shows(h.op.addr, h.op.size, k, h.vals[k], src.mems[k])
  }

  /** Master i, if its operation goes to memory: the beats so far, and the controller's place in the burst. */
  ghost predicate LinkMem(g: Config<Word>, j: nat, h: F.Hist<Word>, src: Source, owns: bool, c: C.Ctl, o: C.Obs) {
    h.started && g.decode(h.op.addr) == j ==>
      && h.op.len <= 15 && Aligned(h.op.addr, h.op.size) && BeatsShow(h, src)
      && (owns && c.r.st == RAddr ==> o.r.len == h.op.len)
      && (owns && C.Reading(c.r) && src.quiet && src.mems != [] ==> src.mems[0] == o.arch)
  }

  ghost predicate MasterOk(g: Config<Word>, j: nat, p: Joint, i: nat)
    requires F.Sized(g, p.f) && |p.src| == g.masters && i < g.masters
  {
    LinkMem(g, j, p.f.hist[i], p.src[i], PeerOf(p.f.h, i) == Some(j), p.s.c, p.o)
  }

  ghost predicate JointInv(g: Config<Word>, j: nat, p: Joint) {
    && F.Inv(g, p.f) && C.SysInv(p.s, p.o) && j < g.slaves && g.zero == C.Zero()
    && p.f.s[j] == p.s.c.r && |p.src| == g.masters
    && forall i :: 0 <= i < g.masters ==> MasterOk(g, j, p, i)
  }

  // ----- One cycle -----

  /** What a connected master puts on the address channel is its operation, and that is one for memory. */
  lemma RequestOk(g: Config<Word>, j: nat, p: Joint, x: JointIn, i: nat)
    requires JointInv(g, j, p) && InputOk(g, j, p, x) && i < g.masters && Conn(p.f.h, F.Wires(g, p.f, x.c), i) == Some(j)
    ensures
      var a := F.StepMaster(p.f, x.c, i).out.raddr;
      a.valid ==> a.len <= 15 && Aligned(a.addr, a.size)
  {
    assert F.LinkOk(g, p.f, i) && MasterOk(g, j, p, i);
    Connection(p.f.h, F.Wires(g, p.f, x.c), i);
    if x.c.start[i].Some? { assert OpOk(g, j, x.c.start[i].value); }
  }

  lemma SysInOk(g: Config<Word>, j: nat, p: Joint, x: JointIn)
    requires JointInv(g, j, p) && InputOk(g, j, p, x)
    ensures SysInOf(g, p.f, x, j).Ok()
  {
    var w := F.Wires(g, p.f, x.c);
    Ownership(p.f.h, w, j);
    var owner := Owner(p.f.h, w, j);
    if owner.Some? { RequestOk(g, j, p, x, owner.value); }
  }

  /** The controller is steady, so the fabric's theorems apply. */
  lemma JointFair(g: Config<Word>, j: nat, p: Joint, x: JointIn)
    requires JointInv(g, j, p) && InputOk(g, j, p, x)
    ensures F.Fair(g, p.f, x.c)
  {
    forall k | 0 <= k < g.slaves ensures F.Steady(p.f.s[k], x.c.dev[k]) {
    }
  }

  /** A well-formed state. */
  ghost predicate Formed(g: Config<Word>, j: nat, p: Joint) {
    F.Sized(g, p.f) && j < g.slaves && |p.src| == g.masters && C.Wf(p.s) && p.o.arch.Valid()
  }

  /** One cycle: the fabric makes a tick, and the controller and its memory a step on what slave j sees. */
  ghost function JointStep(g: Config<Word>, j: nat, p: Joint, x: JointIn): Joint
    requires Formed(g, j, p) && F.SizedCyc(g, x.c) && C.HostOps(x.host)
  {
    var (s', o', _, _) := C.SysStep(p.s, p.o, SysInOf(g, p.f, x, j));
    Joint(F.Tick(g, p.f, x.c), s', o',
          seq(g.masters, i requires 0 <= i < g.masters =>
            NextSource(p.src[i], p.f.m[i], x.c.start[i], BeatFor(g, p, x, j, i), p.o.arch, x.host != [])))
  }

  /** Slave j of the fabric and the controller's read machine make the same step. */
  lemma SlaveIsController(g: Config<Word>, j: nat, p: Joint, x: JointIn)
    requires JointInv(g, j, p) && InputOk(g, j, p, x) && SysInOf(g, p.f, x, j).Ok()
    ensures
      var (s', _, rcall, _) := C.SysStep(p.s, p.o, SysInOf(g, p.f, x, j));
      F.StepSlave(g, p.f, x.c, j) == (s'.c.r, rcall)
  {
    C.StepShape(p.s.c, C.CtlIn(OwnerOut(g, p.f, x.c, j), x.wm, p.s.pins.dout));
  }

  /** What one step of controller and memory means for a burst. */
  lemma ControllerStep(s: C.Sys, o: C.Obs, x: C.SysIn)
    requires C.SysInv(s, o) && x.Ok()
    ensures
      var (s', o', rcall, _) := C.SysStep(s, o, x);
      && (s'.c.r, rcall) == ReadStep(s.c.r, x.rm, C.ReadAnswers(s.c, s.pins.dout), C.Zero())
      && (rcall.DevRead? <==> C.Reading(s.c.r))
      && o'.r.len == (if rcall == ReadSetup(true) then x.rm.raddr.len else o.r.len)
      && (C.Reading(s.c.r) ==> s.c.r.count + o.r.beats == o.r.len)
      && (C.Reading(s.c.r) && x.host == [] ==> o'.arch == o.arch)
  {
    var x1 := C.CtlIn(x.rm, x.wm, s.pins.dout);
    C.HostStep(s, o, x.host);
    C.StepShape(s.c, x1);
    C.CtlInvStep(s.c, o.r, x1);
  }

  /** A beat extends the list, and shows the memory it was read from. */
  lemma BeatAdded(h: F.Hist<Word>, src: Source, h': F.Hist<Word>, src': Source, word: Word, arch: Store)
    requires BeatsShow(h, src) && arch.Valid() && |word| == BUS
    requires C.Shows(h.op.addr, h.op.size, |h.vals|, word, arch)
    requires h'.op == h.op && h'.vals == h.vals + [word] && src'.mems == src.mems + [arch]
    requires src'.quiet ==> src.quiet && (src.mems != [] ==> src.mems[0] == arch)
    ensures BeatsShow(h', src')
  {
    forall k | 0 <= k < |h'.vals| ensures BeatShows(h', src', k) {
      assert k < |h.vals| ==> BeatShows(h, src, k);
    }
  }

  lemma BeatsKept(h: F.Hist<Word>, src: Source, h': F.Hist<Word>, src': Source)
    requires BeatsShow(h, src) && h'.op == h.op && h'.vals == h.vals && src'.mems == src.mems && (src'.quiet ==> src.quiet)
    ensures BeatsShow(h', src')
  {
    forall k | 0 <= k < |h'.vals| ensures BeatShows(h', src', k) {
      assert BeatShows(h, src, k);
    }
  }

  /** What a connected cycle does to the controller and its observer, as far as a burst goes. */
  ghost predicate BurstStep(g: Config<Word>, c: C.Ctl, o: C.Obs, x: C.SysIn, dev: ReadDev<Word>,
                            c': C.Ctl, o': C.Obs, call: ReadCall<Word>) {
    && (c'.r, call) == ReadStep(c.r, x.rm, dev, g.zero)
    && (call.DevRead? <==> C.Reading(c.r))
    && o'.r.len == (if call == ReadSetup(true) then x.rm.raddr.len else o.r.len)
    && (C.Reading(c.r) ==> c.r.count + o.r.beats == o.r.len)
    && (C.Reading(c.r) && x.host == [] ==> o'.arch == o.arch)
    && o.arch.Valid()
    && (call.DevRead? && call.ok ==>
          |call.data| == BUS && C.Shows(c.r.addr, c.r.size, o.r.beats, call.data, o.arch))
  }

  lemma SysBurstStep(g: Config<Word>, s: C.Sys, o: C.Obs, x: C.SysIn)
    requires C.SysInv(s, o) && x.Ok() && g.zero == C.Zero()
    ensures
      var (s', o', call, _) := C.SysStep(s, o, x);
      BurstStep(g, s.c, o, x, C.ReadAnswers(s.c, s.pins.dout), s'.c, o', call)
  {
    ControllerStep(s, o, x);
    C.BeatShowsReference(s, o, x);
  }

  /** The master's view of one connected cycle. */
  lemma ConnectedStep(g: Config<Word>, j: nat, m: MRead, r: ReadSl<Word>, h: F.Hist<Word>, peer: Option<nat>, src: Source,
                      c: C.Ctl, o: C.Obs, start: Option<Op>, x: C.SysIn, dev: ReadDev<Word>, c': C.Ctl, o': C.Obs,
                      call: ReadCall<Word>)
    requires F.LinkInv(g, m, r, h, peer, c.r) && BurstStep(g, c, o, x, dev, c', o', call)
    requires LinkMem(g, j, h, src, peer == Some(j), c, o) && (start.Some? ==> OpOk(g, j, start.value))
    requires x.rm == MReadStep(m, start, r).out
    requires peer == Some(j) ||
             (peer == None && F.IdleSlave(c.r) && x.rm.raddr.valid && g.decode(x.rm.raddr.addr) == j)
    ensures
      var ends := x.rm.ready && c.r.out.last;
      var src' := NextSource(src, m, start, call.DevRead? && call.ok, o.arch, x.host != []);
      LinkMem(g, j, F.Observe(h, m, start, r, j, call), src', !ends, c', o')
  {
    var h' := F.Observe(h, m, start, r, j, call);
    var src' := NextSource(src, m, start, call.DevRead? && call.ok, o.arch, x.host != []);
    if call.DevRead? && call.ok {
      BeatAdded(h, src, h', src', call.data, o.arch);
    } else if m.busy {
      BeatsKept(h, src, h', src');
    }
  }

  /** A cycle in which the master is not connected to the controller: it adds no beat from there. */
  lemma OtherStep(g: Config<Word>, j: nat, m: MRead, r: ReadSl<Word>, h: F.Hist<Word>, peer: Option<nat>, src: Source,
                  s: C.Sys, o: C.Obs, s': C.Sys, o': C.Obs, start: Option<Op>, k: nat, call: ReadCall<Word>,
                  rs: ReadFsm<Word>, dev: ReadDev<Word>, host: bool)
    requires F.LinkInv(g, m, r, h, peer, rs) && peer != Some(j)
    requires LinkMem(g, j, h, src, false, s.c, o) && (start.Some? ==> OpOk(g, j, start.value))
    requires call.NoRead? ||
             (call == ReadStep(rs, MReadStep(m, start, r).out, dev, g.zero).1 &&
              (peer == Some(k) || (peer == None && F.IdleSlave(rs))))
    ensures LinkMem(g, j, F.Observe(h, m, start, r, k, call), NextSource(src, m, start, false, o.arch, host), false, s'.c, o')
  {
    var h', src' := F.Observe(h, m, start, r, k, call), NextSource(src, m, start, false, o.arch, host);
    if h.started && g.decode(h.op.addr) == j && !(!m.busy && start.Some?) {
      BeatsKept(h, src, h', src');
    }
  }

  /** The entries of master i after a step. */
  lemma EntriesAfter(g: Config<Word>, j: nat, p: Joint, x: JointIn, i: nat)
    requires JointInv(g, j, p) && InputOk(g, j, p, x) && i < g.masters
    ensures
      var p' := JointStep(g, j, p, x);
      && F.Sized(g, p'.f) && |p'.src| == g.masters
      && p'.f.hist[i] == F.StepHist(g, p.f, x.c, i)
      && PeerOf(p'.f.h, i) == PeerOf(Crossbar.Step(p.f.h, F.Wires(g, p.f, x.c)), i)
      && p'.src[i] == NextSource(p.src[i], p.f.m[i], x.c.start[i], BeatFor(g, p, x, j, i), p.o.arch, x.host != [])
  {
  }

  /** The system after a step. */
  lemma SystemAfter(g: Config<Word>, j: nat, p: Joint, x: JointIn)
    requires JointInv(g, j, p) && InputOk(g, j, p, x)
    ensures
      var p' := JointStep(g, j, p, x);
      && SysInOf(g, p.f, x, j).Ok()
      && var (s', o', rcall, _) := C.SysStep(p.s, p.o, SysInOf(g, p.f, x, j));
         p'.s == s' && p'.o == o' && F.StepSlave(g, p.f, x.c, j) == (s'.c.r, rcall)
  {
    SysInOk(g, j, p, x);
    SlaveIsController(g, j, p, x);
  }

  /** The cycle as a master connected to slave k sees it. */
  lemma ConnectedView(g: Config<Word>, f: F.Fabric<Word>, c: F.Cyc<Word>, i: nat, k: nat)
    requires F.Inv(g, f) && F.SizedCyc(g, c) && i < g.masters && Conn(f.h, F.Wires(g, f, c), i) == Some(k)
    ensures
      var out, peer := F.StepMaster(f, c, i).out, PeerOf(f.h, i);
      && k < g.slaves && F.StepSlave(g, f, c, k) == ReadStep(f.s[k], out, c.dev[k], g.zero) && OwnerOut(g, f, c, k) == out
      && F.StepHist(g, f, c, i) == F.Observe(f.hist[i], f.m[i], c.start[i], f.rin[i], k, F.StepSlave(g, f, c, k).1)
      && F.LinkInv(g, f.m[i], f.rin[i], f.hist[i], peer, f.s[k])
      && (peer == Some(k) ||
          (peer == None && F.IdleSlave(f.s[k]) && out.raddr.valid && g.decode(out.raddr.addr) == k))
      && PeerOf(Crossbar.Step(f.h, F.Wires(g, f, c)), i) ==
         (if out.ready && f.s[k].out.last then None else Some(k))
  {
    Connection(f.h, F.Wires(g, f, c), i);
    assert F.LinkOk(g, f, i) && F.SlaveOk(g, f, k);
  }

  lemma MasterUnconnected(g: Config<Word>, j: nat, p: Joint, x: JointIn, i: nat)
    requires JointInv(g, j, p) && InputOk(g, j, p, x) && i < g.masters && Conn(p.f.h, F.Wires(g, p.f, x.c), i) == None
    ensures
      var p' := JointStep(g, j, p, x);
      F.Sized(g, p'.f) && |p'.src| == g.masters && MasterOk(g, j, p', i)
  {
    EntriesAfter(g, j, p, x, i);
    assert F.LinkOk(g, p.f, i) && MasterOk(g, j, p, i);
    if x.c.start[i].Some? { assert OpOk(g, j, x.c.start[i].value); }
    Connection(p.f.h, F.Wires(g, p.f, x.c), i);
    var p' := JointStep(g, j, p, x);
    OtherStep(g, j, p.f.m[i], p.f.rin[i], p.f.hist[i], None, p.src[i], p.s, p.o, p'.s, p'.o, x.c.start[i], 0, NoRead,
              ReadReset(g.zero), x.c.dev[j], x.host != []);
  }

  lemma MasterElsewhere(g: Config<Word>, j: nat, p: Joint, x: JointIn, i: nat, k: nat)
    requires JointInv(g, j, p) && InputOk(g, j, p, x) && i < g.masters && k != j
    requires Conn(p.f.h, F.Wires(g, p.f, x.c), i) == Some(k)
    ensures
      var p' := JointStep(g, j, p, x);
      F.Sized(g, p'.f) && |p'.src| == g.masters && MasterOk(g, j, p', i)
  {
    EntriesAfter(g, j, p, x, i);
    ConnectedView(g, p.f, x.c, i, k);
    assert MasterOk(g, j, p, i);
    if x.c.start[i].Some? { assert OpOk(g, j, x.c.start[i].value); }
    var p' := JointStep(g, j, p, x);
    OtherStep(g, j, p.f.m[i], p.f.rin[i], p.f.hist[i], PeerOf(p.f.h, i), p.src[i], p.s, p.o, p'.s, p'.o, x.c.start[i], k,
              F.StepSlave(g, p.f, x.c, k).1, p.f.s[k], x.c.dev[k], x.host != []);
  }

  /** What the step means for the burst. */
  lemma BurstAfter(g: Config<Word>, j: nat, p: Joint, x: JointIn)
    requires JointInv(g, j, p) && InputOk(g, j, p, x)
    ensures
      var p' := JointStep(g, j, p, x);
      BurstStep(g, p.s.c, p.o, SysInOf(g, p.f, x, j), x.c.dev[j], p'.s.c, p'.o, F.StepSlave(g, p.f, x.c, j).1)
  {
    SystemAfter(g, j, p, x);
    SysBurstStep(g, p.s, p.o, SysInOf(g, p.f, x, j));
  }

  /** The entries of a master on memory after a step. */
  lemma EntriesOnMemory(g: Config<Word>, j: nat, p: Joint, x: JointIn, i: nat)
    requires JointInv(g, j, p) && InputOk(g, j, p, x) && i < g.masters
    requires Conn(p.f.h, F.Wires(g, p.f, x.c), i) == Some(j)
    ensures
      var p', call, rm := JointStep(g, j, p, x), F.StepSlave(g, p.f, x.c, j).1, OwnerOut(g, p.f, x.c, j);
      && F.Sized(g, p'.f) && |p'.src| == g.masters
      && p'.f.hist[i] == F.Observe(p.f.hist[i], p.f.m[i], x.c.start[i], p.f.rin[i], j, call)
      && p'.src[i] == NextSource(p.src[i], p.f.m[i], x.c.start[i], call.DevRead? && call.ok, p.o.arch, x.host != [])
      && ((PeerOf(p'.f.h, i) == Some(j)) <==> !(rm.ready && p.s.c.r.out.last))
  {
    EntriesAfter(g, j, p, x, i);
    ConnectedView(g, p.f, x.c, i, j);
  }

  lemma LinkOnMemory(g: Config<Word>, j: nat, p: Joint, x: JointIn, i: nat)
    requires JointInv(g, j, p) && InputOk(g, j, p, x) && i < g.masters
    requires Conn(p.f.h, F.Wires(g, p.f, x.c), i) == Some(j)
    ensures
      var p', call, rm := JointStep(g, j, p, x), F.StepSlave(g, p.f, x.c, j).1, OwnerOut(g, p.f, x.c, j);
      LinkMem(g, j, F.Observe(p.f.hist[i], p.f.m[i], x.c.start[i], p.f.rin[i], j, call),
              NextSource(p.src[i], p.f.m[i], x.c.start[i], call.DevRead? && call.ok, p.o.arch, x.host != []),
              !(rm.ready && p.s.c.r.out.last), p'.s.c, p'.o)
  {
    BurstAfter(g, j, p, x);
    ConnectedView(g, p.f, x.c, i, j);
    assert MasterOk(g, j, p, i);
    if x.c.start[i].Some? { assert OpOk(g, j, x.c.start[i].value); }
    var p' := JointStep(g, j, p, x);
    ConnectedStep(g, j, p.f.m[i], p.f.rin[i], p.f.hist[i], PeerOf(p.f.h, i), p.src[i], p.s.c, p.o, x.c.start[i],
                  SysInOf(g, p.f, x, j), x.c.dev[j], p'.s.c, p'.o, F.StepSlave(g, p.f, x.c, j).1);
  }

  lemma MasterOnMemory(g: Config<Word>, j: nat, p: Joint, x: JointIn, i: nat)
    requires JointInv(g, j, p) && InputOk(g, j, p, x) && i < g.masters
    requires Conn(p.f.h, F.Wires(g, p.f, x.c), i) == Some(j)
    ensures
      var p' := JointStep(g, j, p, x);
      F.Sized(g, p'.f) && |p'.src| == g.masters && MasterOk(g, j, p', i)
  {
    EntriesOnMemory(g, j, p, x, i);
    LinkOnMemory(g, j, p, x, i);
  }

  lemma MasterOkStep(g: Config<Word>, j: nat, p: Joint, x: JointIn, i: nat)
    requires JointInv(g, j, p) && InputOk(g, j, p, x) && i < g.masters
    ensures
      var p' := JointStep(g, j, p, x);
      F.Sized(g, p'.f) && |p'.src| == g.masters && MasterOk(g, j, p', i)
  {
    match Conn(p.f.h, F.Wires(g, p.f, x.c), i)
    case None => MasterUnconnected(g, j, p, x, i);
    case Some(k) => if k == j { MasterOnMemory(g, j, p, x, i); } else { MasterElsewhere(g, j, p, x, i, k); }
  }

  lemma JointInvStep(g: Config<Word>, j: nat, p: Joint, x: JointIn)
    requires JointInv(g, j, p) && InputOk(g, j, p, x)
    ensures JointInv(g, j, JointStep(g, j, p, x))
  {
    var p' := JointStep(g, j, p, x);
    JointFair(g, j, p, x);
    F.TickInv(g, p.f, x.c);
    SysInOk(g, j, p, x);
    SlaveIsController(g, j, p, x);
    C.SysStepInv(p.s, p.o, SysInOf(g, p.f, x, j));
    forall i | 0 <= i < g.masters ensures MasterOk(g, j, p', i) { MasterOkStep(g, j, p, x, i); }
  }

  // ----- Every run from reset -----

  ghost function JointStart(g: Config<Word>, mem: Store): Joint
    requires g.Valid() && mem.Valid()
  {
    var (s, o) := C.SysStart(mem);
    Joint(F.Start(g), s, o, seq(g.masters, _ => Source([], true)))
  }

  ghost predicate Stepped(g: Config<Word>, j: nat, p: Joint, x: JointIn, p': Joint) {
    Formed(g, j, p) && InputOk(g, j, p, x) && p' == JointStep(g, j, p, x)
  }

  ghost function Moves(g: Config<Word>, j: nat): (Joint, JointIn, Joint) -> bool {
    (p, x, p') => Stepped(g, j, p, x, p')
  }

  /** The states of a run from reset, with any contents of memory. */
  ghost predicate JointRun(g: Config<Word>, j: nat, mem: Store, ps: seq<Joint>, xs: seq<JointIn>) {
    && g.Valid() && g.zero == C.Zero() && j < g.slaves && mem.Valid()
    && Runs.Run(Moves(g, j), ps, xs) && ps[0] == JointStart(g, mem)
  }

  lemma JointStartOk(g: Config<Word>, j: nat, mem: Store)
    requires g.Valid() && g.zero == C.Zero() && j < g.slaves && mem.Valid()
    ensures JointInv(g, j, JointStart(g, mem))
  {
    F.ReachInv(g, []);
    var p := JointStart(g, mem);
    assert F.Reach(g, []) == p.f;
    forall i | 0 <= i < g.masters ensures MasterOk(g, j, p, i) {}
  }

  lemma SteppedInv(g: Config<Word>, j: nat, p: Joint, x: JointIn, p': Joint)
    requires JointInv(g, j, p) && Stepped(g, j, p, x, p')
    ensures JointInv(g, j, p')
  {
    JointInvStep(g, j, p, x);
  }

  lemma MovesKeep(g: Config<Word>, j: nat)
    ensures Runs.Keeps(Moves(g, j), p => JointInv(g, j, p))
  {
    forall p, x, p' | JointInv(g, j, p) && Stepped(g, j, p, x, p') ensures JointInv(g, j, p') {
      SteppedInv(g, j, p, x, p');
    }
  }

  lemma JointAlways(g: Config<Word>, j: nat, mem: Store, ps: seq<Joint>, xs: seq<JointIn>, k: nat)
    requires JointRun(g, j, mem, ps, xs) && k < |ps|
    ensures JointInv(g, j, ps[k])
  {
    JointStartOk(g, j, mem);
    MovesKeep(g, j);
    Runs.Onwards(Moves(g, j), p => JointInv(g, j, p), ps, xs, 0, k);
  }

  lemma InvFormed(g: Config<Word>, j: nat, p: Joint)
    requires JointInv(g, j, p)
    ensures Formed(g, j, p)
  {
  }

  /** Every run can go on: its last state is well formed, whatever the next inputs are. */
  lemma RunGoesOn(g: Config<Word>, j: nat, mem: Store, ps: seq<Joint>, xs: seq<JointIn>, x: JointIn)
    requires JointRun(g, j, mem, ps, xs) && InputOk(g, j, ps[|xs|], x)
    ensures Formed(g, j, ps[|xs|]) && JointRun(g, j, mem, ps + [JointStep(g, j, ps[|xs|], x)], xs + [x])
  {
    JointAlways(g, j, mem, ps, xs, |xs|);
    InvFormed(g, j, ps[|xs|]);
    Runs.Extend(Moves(g, j), ps, xs, x, JointStep(g, j, ps[|xs|], x));
  }

  /** Memory reads end to end, in every reachable state: a finished read of an address that decodes to the memory has
      latched len+1 beats, and beat k carries, in its lanes, the bytes at addr + (k << size) of the memory it was read
      from, a reference memory with every write accepted until then; if the host left memory alone after the first
      beat, that is one and the same memory for the whole burst. */
  lemma MemoryReadsEndToEnd(g: Config<Word>, j: nat, mem: Store, ps: seq<Joint>, xs: seq<JointIn>, n: nat, i: nat)
    requires JointRun(g, j, mem, ps, xs) && n < |ps| && i < g.masters
    ensures F.Sized(g, ps[n].f) && |ps[n].src| == g.masters
    ensures
      var h, src := ps[n].f.hist[i], ps[n].src[i];
      h.started && !ps[n].f.m[i].busy && g.decode(h.op.addr) == j ==>
        && |h.got| == |src.mems| == h.op.len + 1
        && (forall k :: 0 <= k <= h.op.len ==> LatchedFrom(h, src, k))
        && (src.quiet ==> forall k :: 0 <= k <= h.op.len ==> src.mems[k] == src.mems[0])
  {
    JointAlways(g, j, mem, ps, xs, n);
    assert F.LinkOk(g, ps[n].f, i) && MasterOk(g, j, ps[n], i);
    var h, src := ps[n].f.hist[i], ps[n].src[i];
    if h.started && !ps[n].f.m[i].busy && g.decode(h.op.addr) == j {
      forall k | 0 <= k <= h.op.len ensures LatchedFrom(h, src, k) { assert BeatShows(h, src, k); }
    }
  }

  /** Latched beat k carries the bytes of its memory. */
  ghost predicate LatchedFrom(h: F.Hist<Word>, src: Source, k: nat)
    requires k < |h.got| == |src.mems|
  {
    src.mems[k].Valid() && |h.got[k]| == BUS && C.Shows(h.op.addr, h.op.size, k, h.got[k], src.mems[k])
  }
}
