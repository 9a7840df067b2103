/** Writes end to end: masters, crossbar and slaves stepped together, in the same cycle
    order as for reads. Devices may delay a write's setup and refuse the beat of a single-beat
    write for a while, but accept every beat of a burst. */
module WriteFabric {
  import opened Axi
  import opened Master
  import opened Slave
  import opened Crossbar

  /** Observer of one master: its current (or last) operation, the words it took from the core, the accepted
      device writes made by the slave it was connected to, and the response that slave raised. */
  datatype Hist<D> = Hist(started: bool, op: Op, sent: seq<D>, sites: seq<Site>, vals: seq<D>, resp: Resp)

  datatype Fabric<D> = Fabric(m: seq<MWrite<D>>, win: seq<WriteSl>, h: Half, s: seq<WriteFsm>, hist: seq<Hist<D>>)

  /** `dout` is the word each core offers in this cycle. */
  datatype Cyc<D> = Cyc(start: seq<Option<Op>>, dout: seq<D>, dev: seq<WriteDev>)

  // ----- One cycle -----

  ghost predicate Sized<D>(g: Config<D>, f: Fabric<D>) {
    && g.Valid()
    && |f.m| == |f.win| == |f.hist| == |f.h.m| == g.masters
    && |f.s| == |f.h.s| == g.slaves
    && f.h.rr < g.masters
  }

  ghost predicate SizedCyc<D>(g: Config<D>, c: Cyc<D>) {
    |c.start| == |c.dout| == g.masters && |c.dev| == g.slaves
  }

  ghost function StepMaster<D>(g: Config<D>, f: Fabric<D>, c: Cyc<D>, i: nat): MWrite<D>
    requires Sized(g, f) && SizedCyc(g, c) && i < g.masters
  {
    MWriteStep(f.m[i], c.start[i], c.dout[i], f.win[i], g.zero)
  }

  ghost function Target<D>(g: Config<D>, f: Fabric<D>, c: Cyc<D>, i: nat): (t: Option<nat>)
    requires Sized(g, f) && SizedCyc(g, c) && i < g.masters
    ensures t.Some? ==> t.value < g.slaves
  {
    var a := StepMaster(g, f, c, i).out.waddr;
    if a.valid then Some(g.decode(a.addr)) else None
  }

  ghost function Wires<D>(g: Config<D>, f: Fabric<D>, c: Cyc<D>): (x: In)
    requires Sized(g, f) && SizedCyc(g, c)
    ensures Fits(f.h, x)
  {
    In(seq(g.masters, i requires 0 <= i < g.masters => Target(g, f, c, i)),
       seq(g.masters, i requires 0 <= i < g.masters => StepMaster(g, f, c, i).out.resReady),
       seq(g.slaves, j requires 0 <= j < g.slaves => f.s[j].out.resValid),
       seq(g.slaves, j requires 0 <= j < g.slaves => f.s[j].out.resValid))
  }

  ghost function StepSlave<D>(g: Config<D>, f: Fabric<D>, c: Cyc<D>, j: nat): (WriteFsm, WriteCall<D>)
    requires Sized(g, f) && SizedCyc(g, c) && j < g.slaves
  {
    var owner := Owner(f.h, Wires(g, f, c), j);
    WriteStep(f.s[j],
              if owner.Some? && owner.value < g.masters then StepMaster(g, f, c, owner.value).out else WriteMaReset(g.zero),
              c.dev[j])
  }

  function Observe<D>(h: Hist<D>, m: MWrite<D>, start: Option<Op>, dout: D, win: WriteSl,
                      j: nat, call: WriteCall<D>, out: WriteSl): Hist<D> {
    var base := if !m.busy && start.Some? then Hist(true, start.value, [], [], [], Okay) else h;
    var now := base.(sent := base.sent + Taken(m, start, dout, win));
    if call.DevWrite? && call.ok
    then now.(sites := now.sites + [Site(j, call.addr, call.size)], vals := now.vals + [call.data],
              resp := if out.resValid then out.resp else now.resp)
    else now
  }

  ghost function StepHist<D>(g: Config<D>, f: Fabric<D>, c: Cyc<D>, i: nat): Hist<D>
    requires Sized(g, f) && SizedCyc(g, c) && i < g.masters
  {
    var conn := Conn(f.h, Wires(g, f, c), i);
    if conn.Some? && conn.value < g.slaves
    then
      var (s', call) := StepSlave(g, f, c, conn.value);
      Observe(f.hist[i], f.m[i], c.start[i], c.dout[i], f.win[i], conn.value, call, s'.out)
    else Observe(f.hist[i], f.m[i], c.start[i], c.dout[i], f.win[i], 0, NoWrite, WRITE_SL_RESET)
  }

  ghost function StepWin<D>(g: Config<D>, f: Fabric<D>, c: Cyc<D>, i: nat): WriteSl
    requires Sized(g, f) && SizedCyc(g, c) && i < g.masters
  {
    var conn := Conn(f.h, Wires(g, f, c), i);
    if conn.Some? && conn.value < g.slaves then f.s[conn.value].out else WRITE_SL_RESET
  }

  ghost function Tick<D>(g: Config<D>, f: Fabric<D>, c: Cyc<D>): Fabric<D>
    requires Sized(g, f) && SizedCyc(g, c)
  {
    Fabric(seq(g.masters, i requires 0 <= i < g.masters => StepMaster(g, f, c, i)),
           seq(g.masters, i requires 0 <= i < g.masters => StepWin(g, f, c, i)),
           Crossbar.Step(f.h, Wires(g, f, c)),
           seq(g.slaves, j requires 0 <= j < g.slaves => StepSlave(g, f, c, j).0),
           seq(g.masters, i requires 0 <= i < g.masters => StepHist(g, f, c, i)))
  }

  /** connectChannel carries out the crossbar's part of a cycle: given what the masters and slaves drive, it leaves
      the tables and the masters' channel ends as `Tick` says, and gives each slave what `StepSlave` shows it. */
  method ConnectWrites<D>(g: Config<D>, ctrl: Ctrl<WriteMa<D>, WriteSl>, mOut: seq<WriteMa<D>>, sOut: seq<WriteSl>,
                          ghost f: Fabric<D>, ghost c: Cyc<D>)
    returns (mIn: seq<WriteSl>, sIn: seq<WriteMa<D>>)
    requires Sized(g, f) && SizedCyc(g, c) && Matched(f.h) && ctrl.Tables() == f.h
    requires |mOut| == g.masters && forall i :: 0 <= i < g.masters ==> mOut[i] == StepMaster(g, f, c, i).out
    requires |sOut| == g.slaves && forall j :: 0 <= j < g.slaves ==> sOut[j] == f.s[j].out
    modifies ctrl
    ensures ctrl.Tables() == Tick(g, f, c).h && mIn == Tick(g, f, c).win && |sIn| == g.slaves
    ensures forall j :: 0 <= j < g.slaves ==> StepSlave(g, f, c, j) == WriteStep(f.s[j], sIn[j], c.dev[j])
  {
    var shown := seq(|sOut|, j requires 0 <= j < |sOut| => sOut[j].resValid);
    var x := In(seq(|mOut|, i requires 0 <= i < |mOut| =>
                      if mOut[i].waddr.valid then Some(g.decode(mOut[i].waddr.addr)) else None),
                seq(|mOut|, i requires 0 <= i < |mOut| => mOut[i].resReady), shown, shown);
    assert x == Wires(g, f, c);
    mIn, sIn := ctrl.ConnectChannel(x, mOut, sOut, WriteMaReset(g.zero), WRITE_SL_RESET);
  }

  // ----- One master with the slave it owns -----

  predicate IdleSlave(s: WriteFsm) {
    s.st == WInit && !s.out.addrReady && !s.out.datReady && !s.out.resValid
  }

  predicate Quiet(w: WriteSl) {
    !w.addrReady && !w.datReady && !w.resValid
  }

  ghost predicate SitesOk<D>(g: Config<D>, h: Hist<D>) {
    && |h.sites| == |h.vals|
    && forall q :: 0 <= q < |h.sites| ==> h.sites[q] == Site(g.decode(h.op.addr), h.op.addr, h.op.size)
  }

  /** Exactly len+1 accepted device writes, all at the decoded slave with the operation's address and size, of
      exactly the words the master took from the core, in order. */
  ghost predicate Delivered<D>(g: Config<D>, h: Hist<D>) {
    SitesOk(g, h) && |h.vals| == h.op.len + 1 && h.vals == h.sent
  }

  /** Before the slave has accepted the address: one word taken, none written. */
  ghost predicate Asking<D>(m: MWrite<D>, w: WriteSl, h: Hist<D>) {
    Quiet(w) && Quiet(m.seen) && m.out.valid && h.vals == [] && |h.sent| == 1 && m.out.data == h.sent[0]
  }

  /** The word on the write channel is the one the master took last, and it is marked last exactly if it is
      word len. */
  ghost predicate Offers<D>(m: MWrite<D>, h: Hist<D>) {
    var n := |h.sent|;
    n > 0 && m.out.data == h.sent[n - 1] && (m.out.last <==> n == h.op.len + 1)
  }

  /** The address pulse has left the slave: it is on the channel or the master has seen it. */
  predicate Accepted<D>(m: MWrite<D>, w: WriteSl, s: WriteFsm) {
    !s.out.addrReady && m.seen.addrReady != w.addrReady
  }

  /** The state of master m between cycles, given the slave `s` it owns (if `peer` is set): the word the master
      offers is the one the slave will write next, and every word is written once. */
  ghost predicate LinkInv<D>(g: Config<D>, m: MWrite<D>, w: WriteSl, h: Hist<D>, peer: Option<nat>, s: WriteFsm) {
    if !m.busy then
      && m.out == WriteMaReset(g.zero) && peer.None? && Quiet(w)
      && (h.started ==> Delivered(g, h) && m.seen.resp == h.resp)
    else
      && h.started && SitesOk(g, h)
      && m.out.resReady && !m.seen.resValid && m.seen.resp == Okay
      && m.out.waddr.valid == !m.seen.addrReady
      && m.out.waddr == (if m.out.waddr.valid then AddrMa(h.op.addr, h.op.size, h.op.len, true) else ADDR_RESET)
      && m.count + |h.sent| == h.op.len + 1
      && (if m.out.valid then Offers(m, h) else m.out.data == g.zero && !m.out.last)
      && match peer
         case None =>
           if m.out.waddr.valid then Asking(m, w, h)
           else
             && !w.addrReady && w.resValid && w.resp == h.resp && h.vals == h.sent && |h.vals| == h.op.len + 1
             && (m.seen.datReady || w.datReady) && m.out.valid == w.datReady
         case Some(j) =>
           && j == g.decode(h.op.addr)
           && (s.st != WInit ==> s.addr == h.op.addr && s.size == h.op.size)
           && !w.resValid
           && match s.st
              case WInit => IdleSlave(s) && m.out.waddr.valid && Asking(m, w, h)
              case WAddrData =>
                && h.op.len == 0 && h.vals == [] && |h.sent| == 1 && m.out.valid && m.out.data == h.sent[0]
                && !s.out.datReady && !s.out.resValid && !w.datReady
                && if s.out.addrReady then m.out.waddr.valid && Asking(m, w, h) else Accepted(m, w, s)
              case WBurst =>
                && s.count + |h.vals| == h.op.len && h.op.len > 0 && m.out.valid
                && s.out.datReady && !s.out.resValid
                && if h.vals == [] then m.out.waddr.valid && Asking(m, w, h) && s.out.addrReady
                   else h.vals == h.sent && w.datReady && Accepted(m, w, s)
              case WEnd =>
                && |h.vals| == h.op.len + 1 && h.vals == h.sent && m.out.valid
                && s.out.resValid && s.out.resp == h.resp && Accepted(m, w, s)
                && w.datReady == (h.op.len > 0) && s.out.datReady == (h.op.len == 0)
  }

  /** The device accepts the beats of a burst. */
  predicate Taking(s: WriteFsm, dev: WriteDev) {
    s.st == WBurst ==> dev.ok
  }

  /** A cycle in which the master is not connected. */
  lemma LinkIdleStep<D>(g: Config<D>, m: MWrite<D>, w: WriteSl, h: Hist<D>, s: WriteFsm, s': WriteFsm,
                        start: Option<Op>, dout: D)
    requires LinkInv(g, m, w, h, None, s)
    ensures LinkInv(g, MWriteStep(m, start, dout, w, g.zero), WRITE_SL_RESET,
                    Observe(h, m, start, dout, w, 0, NoWrite, WRITE_SL_RESET), None, s')
  {
  }

  /** After a cycle in which the master is connected to slave j, it keeps the slave unless the slave shows its
      response, and then the slave is left idle. */
  ghost predicate Keeps<D>(g: Config<D>, m: MWrite<D>, w: WriteSl, h: Hist<D>, peer: Option<nat>, s: WriteFsm,
                           start: Option<Op>, dout: D, dev: WriteDev, j: nat) {
    var m' := MWriteStep(m, start, dout, w, g.zero);
    var (s', call) := WriteStep(s, m'.out, dev);
    var ends := m'.out.resReady && s.out.resValid;
    && LinkInv(g, m', s.out, Observe(h, m, start, dout, w, j, call, s'.out), if ends then None else Some(j), s')
    && (ends ==> peer == Some(j) && IdleSlave(s'))
  }

  lemma LinkAccepts<D>(g: Config<D>, m: MWrite<D>, w: WriteSl, h: Hist<D>, peer: Option<nat>, s: WriteFsm,
                       start: Option<Op>, dout: D, dev: WriteDev, j: nat)
    requires LinkInv(g, m, w, h, peer, s) && s.st == WInit
    requires
      var m' := MWriteStep(m, start, dout, w, g.zero);
      peer == Some(j) ||
      (peer == None && IdleSlave(s) && m'.out.waddr.valid && g.decode(m'.out.waddr.addr) == j)
    ensures Keeps(g, m, w, h, peer, s, start, dout, dev, j)
  {
  }

  lemma LinkTakesBurst<D>(g: Config<D>, m: MWrite<D>, w: WriteSl, h: Hist<D>, s: WriteFsm,
                          start: Option<Op>, dout: D, dev: WriteDev, j: nat)
    requires LinkInv(g, m, w, h, Some(j), s) && Taking(s, dev) && s.st == WBurst
    ensures Keeps(g, m, w, h, Some(j), s, start, dout, dev, j)
  {
  }

  lemma LinkTakesOne<D>(g: Config<D>, m: MWrite<D>, w: WriteSl, h: Hist<D>, s: WriteFsm,
                        start: Option<Op>, dout: D, dev: WriteDev, j: nat)
    requires LinkInv(g, m, w, h, Some(j), s) && (s.st == WAddrData || s.st == WEnd)
    ensures Keeps(g, m, w, h, Some(j), s, start, dout, dev, j)
  {
  }

  /** A cycle in which the master is connected to slave j, either newly granted or as its owner. */
  lemma LinkBusyStep<D>(g: Config<D>, m: MWrite<D>, w: WriteSl, h: Hist<D>, peer: Option<nat>, s: WriteFsm,
                        start: Option<Op>, dout: D, dev: WriteDev, j: nat)
    requires LinkInv(g, m, w, h, peer, s) && Taking(s, dev)
    requires
      var m' := MWriteStep(m, start, dout, w, g.zero);
      peer == Some(j) ||
      (peer == None && IdleSlave(s) && m'.out.waddr.valid && g.decode(m'.out.waddr.addr) == j)
    ensures Keeps(g, m, w, h, peer, s, start, dout, dev, j)
  {
    if s.st == WInit {
      LinkAccepts(g, m, w, h, peer, s, start, dout, dev, j);
    } else if s.st == WBurst {
      LinkTakesBurst(g, m, w, h, s, start, dout, dev, j);
    } else {
      LinkTakesOne(g, m, w, h, s, start, dout, dev, j);
    }
  }

  /** Cycles until the master is done, once it owns a slave whose device is always ready. */
  ghost function Rank<D>(m: MWrite<D>, h: Hist<D>, peer: Option<nat>, s: WriteFsm): nat {
    if !m.busy then 0
    else if peer.None? then 1
    else if s.st == WEnd then 2
    else if s.st == WInit || |h.vals| > h.op.len then h.op.len + 4
    else h.op.len + 3 - |h.vals|
  }

  lemma LinkProgress<D>(g: Config<D>, m: MWrite<D>, w: WriteSl, h: Hist<D>, s: WriteFsm,
                        start: Option<Op>, dout: D, dev: WriteDev, j: nat)
    requires LinkInv(g, m, w, h, Some(j), s) && dev.setupOk && dev.ok
    ensures
      var m' := MWriteStep(m, start, dout, w, g.zero);
      var (s', call) := WriteStep(s, m'.out, dev);
      var ends := m'.out.resReady && s.out.resValid;
      var h' := Observe(h, m, start, dout, w, j, call, s'.out);
      && Rank(m', h', if ends then None else Some(j), s') == Rank(m, h, Some(j), s) - 1
      && h'.op == h.op && h'.started && m'.busy && (ends ==> s.out.resValid)
  {
  }

  // ----- The whole fabric -----

  ghost predicate LinkOk<D>(g: Config<D>, f: Fabric<D>, i: nat)
    requires Sized(g, f) && i < g.masters
  {
    var peer := PeerOf(f.h, i);
    LinkInv(g, f.m[i], f.win[i], f.hist[i], peer,
            if peer.Some? && peer.value < g.slaves then f.s[peer.value] else WRITE_RESET)
  }

  ghost predicate SlaveOk<D>(g: Config<D>, f: Fabric<D>, j: nat)
    requires Sized(g, f) && j < g.slaves
  {
    !f.h.s[j].active ==> IdleSlave(f.s[j])
  }

  ghost predicate Inv<D>(g: Config<D>, f: Fabric<D>) {
    && Sized(g, f) && Matched(f.h)
    && (forall i :: 0 <= i < g.masters ==> LinkOk(g, f, i))
    && (forall j :: 0 <= j < g.slaves ==> SlaveOk(g, f, j))
  }

  /** Every device accepts every beat of a burst. */
  ghost predicate Accepting<D>(g: Config<D>, f: Fabric<D>, c: Cyc<D>) {
    && SizedCyc(g, c) && |f.s| == g.slaves
    && forall j :: 0 <= j < g.slaves ==> Taking(f.s[j], c.dev[j])
  }

  lemma TickUnconnected<D>(g: Config<D>, f: Fabric<D>, c: Cyc<D>, i: nat)
    requires Inv(g, f) && Accepting(g, f, c) && i < g.masters && Conn(f.h, Wires(g, f, c), i) == None
    ensures Sized(g, Tick(g, f, c)) && LinkOk(g, Tick(g, f, c), i)
  {
    assert LinkOk(g, f, i);
    Connection(f.h, Wires(g, f, c), i);
    LinkIdleStep(g, f.m[i], f.win[i], f.hist[i], WRITE_RESET, WRITE_RESET, c.start[i], c.dout[i]);
  }

  /** The entries of a connected master, and of its slave, after a cycle. */
  lemma TickEntries<D>(g: Config<D>, f: Fabric<D>, c: Cyc<D>, i: nat, j: nat)
    requires Sized(g, f) && SizedCyc(g, c) && Matched(f.h) && i < g.masters && Conn(f.h, Wires(g, f, c), i) == Some(j)
    ensures j < g.slaves
    ensures
      var f', m', peer := Tick(g, f, c), MWriteStep(f.m[i], c.start[i], c.dout[i], f.win[i], g.zero), PeerOf(f.h, i);
      var (s', call) := WriteStep(f.s[j], m'.out, c.dev[j]);
      && Sized(g, f') && f'.m[i] == m' && f'.win[i] == f.s[j].out && f'.s[j] == s'
      && f'.hist[i] == Observe(f.hist[i], f.m[i], c.start[i], c.dout[i], f.win[i], j, call, s'.out)
      && (peer == Some(j) || (peer == None && !f.h.s[j].active && m'.out.waddr.valid && g.decode(m'.out.waddr.addr) == j))
      && PeerOf(f'.h, i) == (if peer == Some(j) && m'.out.resReady && f.s[j].out.resValid then None else Some(j))
  {
    Connection(f.h, Wires(g, f, c), i);
  }

  lemma TickConnected<D>(g: Config<D>, f: Fabric<D>, c: Cyc<D>, i: nat, j: nat)
    requires Inv(g, f) && Accepting(g, f, c) && i < g.masters && Conn(f.h, Wires(g, f, c), i) == Some(j)
    ensures Sized(g, Tick(g, f, c)) && LinkOk(g, Tick(g, f, c), i)
  {
    TickEntries(g, f, c, i, j);
    assert LinkOk(g, f, i) && SlaveOk(g, f, j) && Taking(f.s[j], c.dev[j]);
    LinkBusyStep(g, f.m[i], f.win[i], f.hist[i], PeerOf(f.h, i), f.s[j], c.start[i], c.dout[i], c.dev[j], j);
  }

  lemma TickMaster<D>(g: Config<D>, f: Fabric<D>, c: Cyc<D>, i: nat)
    requires Inv(g, f) && Accepting(g, f, c) && i < g.masters
    ensures Sized(g, Tick(g, f, c)) && LinkOk(g, Tick(g, f, c), i)
  {
    match Conn(f.h, Wires(g, f, c), i)
    case None => TickUnconnected(g, f, c, i);
    case Some(j) => TickConnected(g, f, c, i, j);
  }

  lemma TickSlave<D>(g: Config<D>, f: Fabric<D>, c: Cyc<D>, j: nat)
    requires Inv(g, f) && Accepting(g, f, c) && j < g.slaves
    ensures Sized(g, Tick(g, f, c)) && SlaveOk(g, Tick(g, f, c), j)
    ensures StepSlave(g, f, c, j).1.DevWrite? ==> Owner(f.h, Wires(g, f, c), j).Some?
  {
    var x := Wires(g, f, c);
    assert SlaveOk(g, f, j) && Taking(f.s[j], c.dev[j]);
    Ownership(f.h, x, j);
    match Owner(f.h, x, j)
    case None =>
    case Some(i) =>
      TickEntries(g, f, c, i, j);
      assert LinkOk(g, f, i);
      LinkBusyStep(g, f.m[i], f.win[i], f.hist[i], PeerOf(f.h, i), f.s[j], c.start[i], c.dout[i], c.dev[j], j);
  }

  lemma TickInv<D>(g: Config<D>, f: Fabric<D>, c: Cyc<D>)
    requires Inv(g, f) && Accepting(g, f, c)
    ensures Inv(g, Tick(g, f, c))
  {
    OwnershipMatching(f.h, Wires(g, f, c));
    forall i | 0 <= i < g.masters ensures LinkOk(g, Tick(g, f, c), i) { TickMaster(g, f, c, i); }
    forall j | 0 <= j < g.slaves ensures SlaveOk(g, Tick(g, f, c), j) { TickSlave(g, f, c, j); }
  }

  // ----- Every run from reset -----

  function Start<D>(g: Config<D>): Fabric<D> {
    Fabric(seq(g.masters, _ => MWriteReset(g.zero)), seq(g.masters, _ => WRITE_SL_RESET),
           Crossbar.Reset(g.masters, g.slaves), seq(g.slaves, _ => WRITE_RESET),
           seq(g.masters, _ => Hist(false, Op(0, 0, 0), [], [], [], Okay)))
  }

  ghost function Reach<D>(g: Config<D>, cs: seq<Cyc<D>>): (f: Fabric<D>)
    requires g.Valid() && forall n :: 0 <= n < |cs| ==> SizedCyc(g, cs[n])
    ensures Sized(g, f)
  {
    if cs == [] then Start(g) else Tick(g, Reach(g, cs[..|cs| - 1]), cs[|cs| - 1])
  }

  /** In every cycle of the run, every device accepts every beat of a burst. */
  ghost predicate AcceptingRun<D>(g: Config<D>, cs: seq<Cyc<D>>) {
    && g.Valid() && (forall n :: 0 <= n < |cs| ==> SizedCyc(g, cs[n]))
    && forall n :: 0 <= n < |cs| ==> Accepting(g, Reach(g, cs[..n]), cs[n])
  }

  lemma {:induction false} ReachInv<D>(g: Config<D>, cs: seq<Cyc<D>>)
    requires AcceptingRun(g, cs)
    ensures Inv(g, Reach(g, cs))
  {
    if cs == [] {
      forall i | 0 <= i < g.masters ensures LinkOk(g, Start(g), i) {}
    } else {
      var before := cs[..|cs| - 1];
      forall n | 0 <= n < |before| ensures Accepting(g, Reach(g, before[..n]), before[n]) {
        assert before[..n] == cs[..n];
      }
      ReachInv(g, before);
      assert Accepting(g, Reach(g, before), cs[|cs| - 1]);
      TickInv(g, Reach(g, before), cs[|cs| - 1]);
    }
  }

  // ----- Completion -----

  ghost function RankOf<D>(g: Config<D>, f: Fabric<D>, i: nat): nat
    requires Sized(g, f) && i < g.masters
  {
    var peer := PeerOf(f.h, i);
    Rank(f.m[i], f.hist[i], peer, if peer.Some? && peer.value < g.slaves then f.s[peer.value] else WRITE_RESET)
  }

  /** Master i owns slave j, or has let go of it with the response still on its channel. */
  ghost predicate Served<D>(g: Config<D>, f: Fabric<D>, i: nat, j: nat)
    requires Sized(g, f) && i < g.masters
  {
    f.m[i].busy && (PeerOf(f.h, i) == Some(j) || (PeerOf(f.h, i) == None && f.win[i].resValid))
  }

  lemma TickOwned<D>(g: Config<D>, f: Fabric<D>, c: Cyc<D>, i: nat, j: nat)
    requires Inv(g, f) && Accepting(g, f, c) && i < g.masters && j < g.slaves && PeerOf(f.h, i) == Some(j)
    requires c.dev[j].setupOk && c.dev[j].ok
    ensures
      var f' := Tick(g, f, c);
      && Sized(g, f') && RankOf(g, f', i) == RankOf(g, f, i) - 1
      && f'.hist[i].op == f.hist[i].op && f'.hist[i].started && Served(g, f', i, j)
  {
    assert LinkOk(g, f, i);
    Connection(f.h, Wires(g, f, c), i);
    LinkProgress(g, f.m[i], f.win[i], f.hist[i], f.s[j], c.start[i], c.dout[i], c.dev[j], j);
  }

  lemma TickReleased<D>(g: Config<D>, f: Fabric<D>, c: Cyc<D>, i: nat)
    requires Inv(g, f) && Accepting(g, f, c) && i < g.masters
    requires f.m[i].busy && PeerOf(f.h, i) == None && f.win[i].resValid
    ensures
      var f' := Tick(g, f, c);
      Sized(g, f') && !f'.m[i].busy && f'.hist[i].op == f.hist[i].op && f'.hist[i].started
  {
    assert LinkOk(g, f, i);
  }

  ghost predicate InService<D>(g: Config<D>, f: Fabric<D>, i: nat, j: nat) {
    Inv(g, f) && i < g.masters && j < g.slaves && Served(g, f, i, j)
  }

  /** Master i has finished operation op. */
  ghost predicate Finished<D>(g: Config<D>, f: Fabric<D>, i: nat, op: Op) {
    Sized(g, f) && i < g.masters && !f.m[i].busy && f.hist[i].op == op && Delivered(g, f.hist[i])
  }

  /** One cycle to f', with the device of slave j ready. */
  ghost predicate Hop<D>(g: Config<D>, f: Fabric<D>, c: Cyc<D>, f': Fabric<D>, j: nat) {
    Sized(g, f) && Accepting(g, f, c) && f' == Tick(g, f, c) && j < g.slaves && c.dev[j].setupOk && c.dev[j].ok
  }

  lemma HopServed<D>(g: Config<D>, f: Fabric<D>, c: Cyc<D>, f': Fabric<D>, i: nat, j: nat)
    requires InService(g, f, i, j) && Hop(g, f, c, f', j)
    ensures Sized(g, f') && RankOf(g, f', i) == RankOf(g, f, i) - 1
    ensures if f'.m[i].busy then InService(g, f', i, j) && f'.hist[i].op == f.hist[i].op
            else Finished(g, f', i, f.hist[i].op)
  {
    if PeerOf(f.h, i) == Some(j) {
      TickOwned(g, f, c, i, j);
    } else {
      TickReleased(g, f, c, i);
    }
    TickInv(g, f, c);
    assert LinkOk(g, f', i);
  }

  lemma BusyRank<D>(g: Config<D>, f: Fabric<D>, i: nat)
    requires Inv(g, f) && i < g.masters && f.m[i].busy
    ensures 1 <= RankOf(g, f, i) <= f.hist[i].op.len + 4
  {
    assert LinkOk(g, f, i);
  }

  /** Completion: from any state that keeps the invariant, as every reachable state does, a write whose slave's device
      is ready is over, with all its words written, exactly RankOf cycles later, and that is at most len+4. */
  lemma {:induction false} ServedWriteCompletes<D>(g: Config<D>, fs: seq<Fabric<D>>, cs: seq<Cyc<D>>, i: nat, j: nat)
    requires |fs| == |cs| + 1 && InService(g, fs[0], i, j)
    requires forall k :: 0 <= k < |cs| ==> Hop(g, fs[k], cs[k], fs[k + 1], j)
    requires |cs| == RankOf(g, fs[0], i)
    ensures |cs| <= fs[0].hist[i].op.len + 4
    ensures Finished(g, fs[|cs|], i, fs[0].hist[i].op)
    decreases |cs|
  {
    BusyRank(g, fs[0], i);
    assert Hop(g, fs[0], cs[0], fs[0 + 1], j);
    HopServed(g, fs[0], cs[0], fs[1], i, j);
    if fs[1].m[i].busy {
      ServedWriteCompletes(g, fs[1..], cs[1..], i, j);
    }
  }

  /** Writes end to end, in every reachable state: when a master's operation is over, exactly len+1 device writes
      were accepted, at the decoded slave, of exactly the words the master took, in order, and the response
      it saw is the one that slave raised; while it is busy, the words written are a prefix of those taken, and
      a word it offers is the one it took last, marked last exactly if it is word len; an idle master drives the reset values. */
  lemma WritesEndToEnd<D>(g: Config<D>, cs: seq<Cyc<D>>, i: nat)
    requires AcceptingRun(g, cs) && i < g.masters
    ensures
      var f := Reach(g, cs);
      var h := f.hist[i];
      && (!f.m[i].busy && h.started ==> Delivered(g, h) && f.m[i].seen.resp == h.resp)
      && (f.m[i].busy ==> SitesOk(g, h) && h.vals <= h.sent && |h.sent| <= h.op.len + 1)
      && (if f.m[i].busy then f.m[i].out.valid ==> Offers(f.m[i], h) else f.m[i].out == WriteMaReset(g.zero))
  {
    ReachInv(g, cs);
    assert LinkOk(g, Reach(g, cs), i);
  }

  /** What the core is told, in every cycle of every run: a busy master says `ready` exactly in the cycle in which
      its write is over and the slave's response was OKAY. */
  lemma ReadyAfterOkay<D>(g: Config<D>, cs: seq<Cyc<D>>, c: Cyc<D>, i: nat)
    requires AcceptingRun(g, cs) && Accepting(g, Reach(g, cs), c) && i < g.masters && Reach(g, cs).m[i].busy
    ensures
      var f := Reach(g, cs);
      var f' := Tick(g, f, c);
      Reports(f.m[i], f.win[i], f'.m[i]) <==> !f'.m[i].busy && f'.hist[i].resp == Okay
  {
    ReachInv(g, cs);
    var f := Reach(g, cs);
    assert LinkOk(g, f, i);
    Connection(f.h, Wires(g, f, c), i);
  }

  /** No device reports a fault in this cycle. */
  ghost predicate Faultless<D>(c: Cyc<D>) {
    forall j :: 0 <= j < |c.dev| ==> !c.dev[j].fault
  }

  /** No slave shows, and no master's slave has raised, an error response. */
  ghost predicate AllOkay<D>(g: Config<D>, f: Fabric<D>) {
    && Sized(g, f)
    && (forall i :: 0 <= i < g.masters ==> f.hist[i].resp == Okay)
    && forall j :: 0 <= j < g.slaves ==> f.s[j].out.resp == Okay
  }

  lemma SlaveOkay<D>(g: Config<D>, f: Fabric<D>, c: Cyc<D>, j: nat)
    requires AllOkay(g, f) && SizedCyc(g, c) && Faultless(c) && j < g.slaves
    ensures StepSlave(g, f, c, j).0.out.resp == Okay
  {
    assert !c.dev[j].fault && f.s[j].out.resp == Okay;
  }

  lemma HistOkay<D>(g: Config<D>, f: Fabric<D>, c: Cyc<D>, i: nat)
    requires AllOkay(g, f) && SizedCyc(g, c) && Faultless(c) && i < g.masters
    ensures StepHist(g, f, c, i).resp == Okay
  {
    var conn := Conn(f.h, Wires(g, f, c), i);
    if conn.Some? && conn.value < g.slaves { SlaveOkay(g, f, c, conn.value); }
  }

  lemma TickOkay<D>(g: Config<D>, f: Fabric<D>, c: Cyc<D>)
    requires AllOkay(g, f) && SizedCyc(g, c) && Faultless(c)
    ensures AllOkay(g, Tick(g, f, c))
  {
    forall i | 0 <= i < g.masters ensures StepHist(g, f, c, i).resp == Okay { HistOkay(g, f, c, i); }
    forall j | 0 <= j < g.slaves ensures StepSlave(g, f, c, j).0.out.resp == Okay { SlaveOkay(g, f, c, j); }
  }

  lemma {:induction false} FaultlessOkay<D>(g: Config<D>, cs: seq<Cyc<D>>)
    requires g.Valid() && forall n :: 0 <= n < |cs| ==> SizedCyc(g, cs[n])
    requires forall n :: 0 <= n < |cs| ==> Faultless(cs[n])
    ensures AllOkay(g, Reach(g, cs))
  {
    if cs != [] {
      FaultlessOkay(g, cs[..|cs| - 1]);
      TickOkay(g, Reach(g, cs[..|cs| - 1]), cs[|cs| - 1]);
    }
  }

  /** With devices that never fault, no write is reported bad: a busy master says `ready` exactly in the cycle in
      which its write is over. */
  lemma ReadyWhenOver<D>(g: Config<D>, cs: seq<Cyc<D>>, c: Cyc<D>, i: nat)
    requires AcceptingRun(g, cs) && Accepting(g, Reach(g, cs), c) && i < g.masters && Reach(g, cs).m[i].busy
    requires Faultless(c) && forall n :: 0 <= n < |cs| ==> Faultless(cs[n])
    ensures
      var f := Reach(g, cs);
      var f' := Tick(g, f, c);
      Reports(f.m[i], f.win[i], f'.m[i]) <==> !f'.m[i].busy
  {
    ReadyAfterOkay(g, cs, c, i);
    FaultlessOkay(g, cs);
    HistOkay(g, Reach(g, cs), c, i);
  }

  /** No device write is anonymous: a slave writes only while it is connected to exactly one master, which is
      busy with an operation decoded to that slave. */
  lemma NoStrayWrites<D>(g: Config<D>, cs: seq<Cyc<D>>, c: Cyc<D>, j: nat)
    requires AcceptingRun(g, cs) && Accepting(g, Reach(g, cs), c) && j < g.slaves
    requires StepSlave(g, Reach(g, cs), c, j).1.DevWrite?
    ensures
      var f := Reach(g, cs);
      var x := Wires(g, f, c);
      exists i :: 0 <= i < g.masters && Conn(f.h, x, i) == Some(j) && f.m[i].busy &&
                  g.decode(f.hist[i].op.addr) == j &&
                  forall i' :: 0 <= i' < g.masters && Conn(f.h, x, i') == Some(j) ==> i' == i
  {
    var f := Reach(g, cs);
    var x := Wires(g, f, c);
    ReachInv(g, cs);
    TickSlave(g, f, c, j);
    Ownership(f.h, x, j);
    var i := Owner(f.h, x, j).value;
    Connection(f.h, x, i);
    assert LinkOk(g, f, i) && SlaveOk(g, f, j);
    forall i' | 0 <= i' < g.masters && Conn(f.h, x, i') == Some(j) ensures i' == i {
      ConnOwner(f.h, x, i', j);
    }
  }
}
