/** Reads end to end: masters, crossbar and slaves stepped together. One cycle runs the
    masters' fsm, then connectChannel, then the slaves' fsm; that order is an assumption
    of the model. Which master starts what, and what the devices answer, is arbitrary. */
module ReadFabric {
  import opened Axi
  import opened Master
  import opened Slave
  import opened Crossbar

  /** Observer of one master: its current (or last) operation, the successful device reads made by the
      slave it was connected to, the values they returned, and the beats the master latched with
      their responses. */
  datatype Hist<D> = Hist(started: bool, op: Op, sites: seq<Site>, vals: seq<D>, got: seq<D>, resps: seq<Resp>)

  /** `rin` is the slave end of each master's channel; every other channel wire equals a register. */
  datatype Fabric<D> = Fabric(m: seq<MRead>, rin: seq<ReadSl<D>>, h: Half, s: seq<ReadFsm<D>>, hist: seq<Hist<D>>)

  datatype Cyc<D> = Cyc(start: seq<Option<Op>>, dev: seq<ReadDev<D>>)

  // ----- One cycle -----

  ghost predicate Sized<D>(g: Config<D>, f: Fabric<D>) {
    && g.Valid()
    && |f.m| == |f.rin| == |f.hist| == |f.h.m| == g.masters
    && |f.s| == |f.h.s| == g.slaves
    && f.h.rr < g.masters
  }

  ghost predicate SizedCyc<D>(g: Config<D>, c: Cyc<D>) {
    |c.start| == g.masters && |c.dev| == g.slaves
  }

  function StepMaster<D>(f: Fabric<D>, c: Cyc<D>, i: nat): MRead
    requires i < |f.m| && i < |f.rin| && i < |c.start|
  {
    MReadStep(f.m[i], c.start[i], f.rin[i])
  }

  ghost function Target<D>(g: Config<D>, f: Fabric<D>, c: Cyc<D>, i: nat): (t: Option<nat>)
    requires Sized(g, f) && SizedCyc(g, c) && i < g.masters
    ensures t.Some? ==> t.value < g.slaves
  {
    var a := StepMaster(f, c, i).out.raddr;
    if a.valid then Some(g.decode(a.addr)) else None
  }

  ghost function Wires<D>(g: Config<D>, f: Fabric<D>, c: Cyc<D>): (x: In)
    requires Sized(g, f) && SizedCyc(g, c)
    ensures Fits(f.h, x)
  {
    In(seq(g.masters, i requires 0 <= i < g.masters => Target(g, f, c, i)),
       seq(g.masters, i requires 0 <= i < g.masters => StepMaster(f, c, i).out.ready),
       seq(g.slaves, j requires 0 <= j < g.slaves => f.s[j].out.valid),
       seq(g.slaves, j requires 0 <= j < g.slaves => f.s[j].out.last))
  }

  ghost function StepSlave<D>(g: Config<D>, f: Fabric<D>, c: Cyc<D>, j: nat): (ReadFsm<D>, ReadCall<D>)
    requires Sized(g, f) && SizedCyc(g, c) && j < g.slaves
  {
    var owner := Owner(f.h, Wires(g, f, c), j);
    ReadStep(f.s[j], if owner.Some? && owner.value < g.masters then StepMaster(f, c, owner.value).out else READ_MA_RESET,
             c.dev[j], g.zero)
  }

  function Observe<D>(h: Hist<D>, m: MRead, start: Option<Op>, rin: ReadSl<D>, j: nat, call: ReadCall<D>): Hist<D> {
    var base := if !m.busy && start.Some? then Hist(true, start.value, [], [], [], []) else h;
    var now := base.(got := base.got + Latched(m, rin),
                     resps := base.resps + if m.busy && rin.valid then [rin.resp] else []);
    if call.DevRead? && call.ok
    then now.(sites := now.sites + [Site(j, call.addr, call.size)], vals := now.vals + [call.data]) else now
  }

  ghost function StepHist<D>(g: Config<D>, f: Fabric<D>, c: Cyc<D>, i: nat): Hist<D>
    requires Sized(g, f) && SizedCyc(g, c) && i < g.masters
  {
    var conn := Conn(f.h, Wires(g, f, c), i);
    if conn.Some? && conn.value < g.slaves
    then Observe(f.hist[i], f.m[i], c.start[i], f.rin[i], conn.value, StepSlave(g, f, c, conn.value).1)
    else Observe(f.hist[i], f.m[i], c.start[i], f.rin[i], 0, NoRead)
  }

  ghost function StepRin<D>(g: Config<D>, f: Fabric<D>, c: Cyc<D>, i: nat): ReadSl<D>
    requires Sized(g, f) && SizedCyc(g, c) && i < g.masters
  {
    var conn := Conn(f.h, Wires(g, f, c), i);
    if conn.Some? && conn.value < g.slaves then f.s[conn.value].out else ReadSlReset(g.zero)
  }

  ghost function Tick<D>(g: Config<D>, f: Fabric<D>, c: Cyc<D>): Fabric<D>
    requires Sized(g, f) && SizedCyc(g, c)
  {
    Fabric(seq(g.masters, i requires 0 <= i < g.masters => StepMaster(f, c, i)),
           seq(g.masters, i requires 0 <= i < g.masters => StepRin(g, f, c, i)),
           Crossbar.Step(f.h, Wires(g, f, c)),
           seq(g.slaves, j requires 0 <= j < g.slaves => StepSlave(g, f, c, j).0),
           seq(g.masters, i requires 0 <= i < g.masters => StepHist(g, f, c, i)))
  }

  /** connectChannel carries out the crossbar's part of a cycle: given what the masters and slaves drive, it leaves
      the tables and the masters' channel ends as `Tick` says, and gives each slave what `StepSlave` shows it. */
  method ConnectReads<D>(g: Config<D>, ctrl: Ctrl<ReadMa, ReadSl<D>>, mOut: seq<ReadMa>, sOut: seq<ReadSl<D>>,
                         ghost f: Fabric<D>, ghost c: Cyc<D>)
    returns (mIn: seq<ReadSl<D>>, sIn: seq<ReadMa>)
    requires Sized(g, f) && SizedCyc(g, c) && Matched(f.h) && ctrl.Tables() == f.h
    requires |mOut| == g.masters && forall i :: 0 <= i < g.masters ==> mOut[i] == StepMaster(f, c, i).out
    requires |sOut| == g.slaves && forall j :: 0 <= j < g.slaves ==> sOut[j] == f.s[j].out
    modifies ctrl
    ensures ctrl.Tables() == Tick(g, f, c).h && mIn == Tick(g, f, c).rin && |sIn| == g.slaves
    ensures forall j :: 0 <= j < g.slaves ==> StepSlave(g, f, c, j) == ReadStep(f.s[j], sIn[j], c.dev[j], g.zero)
  {
    var x := In(seq(|mOut|, i requires 0 <= i < |mOut| =>
                      if mOut[i].raddr.valid then Some(g.decode(mOut[i].raddr.addr)) else None),
                seq(|mOut|, i requires 0 <= i < |mOut| => mOut[i].ready),
                seq(|sOut|, j requires 0 <= j < |sOut| => sOut[j].valid),
                seq(|sOut|, j requires 0 <= j < |sOut| => sOut[j].last));
    assert x == Wires(g, f, c);
    mIn, sIn := ctrl.ConnectChannel(x, mOut, sOut, READ_MA_RESET, ReadSlReset(g.zero));
  }

  // ----- One master with the slave it owns -----

  function Pipe<D>(r: ReadSl<D>): seq<D> {
    if r.valid then [r.data] else []
  }

  predicate IdleSlave<D>(s: ReadFsm<D>) {
    s.st == RInit && !s.out.addrReady && !s.out.valid && !s.out.last && s.out.resp == Okay
  }

  ghost predicate SitesOk<D>(g: Config<D>, h: Hist<D>) {
    && |h.sites| == |h.vals|
    && forall q :: 0 <= q < |h.sites| ==> h.sites[q] == Site(g.decode(h.op.addr), h.op.addr, h.op.size)
  }

  /** The master latched an OKAY response with every beat. */
  ghost predicate RespsOk<D>(h: Hist<D>) {
    |h.resps| == |h.got| && forall q :: 0 <= q < |h.resps| ==> h.resps[q] == Okay
  }

  /** Exactly len+1 device reads, all at the decoded slave with the operation's address and size, and the
      beats latched by the master are exactly their values, in order, each with an OKAY response. */
  ghost predicate Delivered<D>(g: Config<D>, h: Hist<D>) {
    SitesOk(g, h) && |h.vals| == h.op.len + 1 && h.got == h.vals && RespsOk(h)
  }

  /** The address handshake: the slave's ready pulse travels slave, channel, master. */
  predicate Handshake<D>(m: MRead, r: ReadSl<D>, s: ReadFsm<D>) {
    if m.gotAddr then !r.addrReady && !s.out.addrReady else r.addrReady != s.out.addrReady
  }

  /** The state of master m between cycles, given the slave `s` it owns (if `peer` is set): no beat is lost or
      doubled between the device, the slave's register, the channel and the master. */
  ghost predicate LinkInv<D>(g: Config<D>, m: MRead, r: ReadSl<D>, h: Hist<D>, peer: Option<nat>, s: ReadFsm<D>) {
    if !m.busy then
      && m.out == READ_MA_RESET && peer.None? && !r.addrReady && !r.valid && r.resp == Okay
      && (h.started ==> Delivered(g, h))
    else
      && h.started && SitesOk(g, h) && RespsOk(h)
      && m.out.ready && !m.gotData && r.resp == Okay && (peer.Some? ==> s.out.resp == Okay)
      && m.out.raddr.valid == !m.gotAddr
      && m.out.raddr == (if m.out.raddr.valid then AddrMa(h.op.addr, h.op.size, h.op.len, true) else ADDR_RESET)
      && m.count + |h.got| == h.op.len
      && h.vals == h.got + Pipe(r) + (if peer.Some? then Pipe(s.out) else [])
      && match peer
         case None =>
           && !r.addrReady
           && (if m.gotAddr then r.valid && |h.vals| == h.op.len + 1 else h.vals == [])
         case Some(j) =>
           && j == g.decode(h.op.addr)
           && match s.st
              case RInit => IdleSlave(s) && !m.gotAddr && h.vals == [] && !r.addrReady
              case RAddr =>
                && s.addr == h.op.addr && s.size == h.op.size && !s.burstEnd
                && s.count + |h.vals| == h.op.len && !s.out.last
                && s.out.valid == (h.vals != []) && (s.out.addrReady ==> h.vals == [])
                && Handshake(m, r, s)
              case REnd =>
                |h.vals| == h.op.len + 1 && s.out.valid && s.out.last && !s.out.addrReady && Handshake(m, r, s)
  }

  /** Once a device has been ready in a burst it stays ready. */
  predicate Steady<D>(s: ReadFsm<D>, dev: ReadDev<D>) {
    s.st == RAddr && s.out.valid && !s.burstEnd ==> dev.ok
  }

  /** A cycle in which the master is not connected. */
  lemma LinkIdleStep<D>(g: Config<D>, m: MRead, r: ReadSl<D>, h: Hist<D>, s: ReadFsm<D>, s': ReadFsm<D>, start: Option<Op>)
    requires LinkInv(g, m, r, h, None, s)
    ensures LinkInv(g, MReadStep(m, start, r), ReadSlReset(g.zero), Observe(h, m, start, r, 0, NoRead), None, s')
  {
  }

  /** After a cycle in which the master is connected to slave j, it keeps the slave unless the slave shows its last
      beat, and then the slave is left idle. */
  ghost predicate Keeps<D>(g: Config<D>, m: MRead, r: ReadSl<D>, h: Hist<D>, peer: Option<nat>, s: ReadFsm<D>,
                           start: Option<Op>, dev: ReadDev<D>, j: nat) {
    var m' := MReadStep(m, start, r);
    var (s', call) := ReadStep(s, m'.out, dev, g.zero);
    var ends := m'.out.ready && s.out.last;
    && LinkInv(g, m', s.out, Observe(h, m, start, r, j, call), if ends then None else Some(j), s')
    && (ends ==> peer == Some(j) && IdleSlave(s'))
  }

  lemma LinkAccepts<D>(g: Config<D>, m: MRead, r: ReadSl<D>, h: Hist<D>, peer: Option<nat>, s: ReadFsm<D>,
                       start: Option<Op>, dev: ReadDev<D>, j: nat)
    requires LinkInv(g, m, r, h, peer, s) && s.st == RInit
    requires peer == Some(j) ||
             (peer == None && IdleSlave(s) && MReadStep(m, start, r).out.raddr.valid &&
              g.decode(MReadStep(m, start, r).out.raddr.addr) == j)
    ensures Keeps(g, m, r, h, peer, s, start, dev, j)
  {
  }

  lemma LinkReads<D>(g: Config<D>, m: MRead, r: ReadSl<D>, h: Hist<D>, s: ReadFsm<D>, start: Option<Op>,
                     dev: ReadDev<D>, j: nat)
    requires LinkInv(g, m, r, h, Some(j), s) && Steady(s, dev) && s.st != RInit
    ensures Keeps(g, m, r, h, Some(j), s, start, dev, j)
  {
  }

  /** A cycle in which the master is connected to slave j, either newly granted or as its owner. */
  lemma LinkBusyStep<D>(g: Config<D>, m: MRead, r: ReadSl<D>, h: Hist<D>, peer: Option<nat>, s: ReadFsm<D>,
                        start: Option<Op>, dev: ReadDev<D>, j: nat)
    requires LinkInv(g, m, r, h, peer, s) && Steady(s, dev)
    requires peer == Some(j) ||
             (peer == None && IdleSlave(s) && MReadStep(m, start, r).out.raddr.valid &&
              g.decode(MReadStep(m, start, r).out.raddr.addr) == j)
    ensures Keeps(g, m, r, h, peer, s, start, dev, j)
  {
    if s.st == RInit {
      LinkAccepts(g, m, r, h, peer, s, start, dev, j);
    } else {
      LinkReads(g, m, r, h, s, start, dev, j);
    }
  }

  /** Cycles until the master is done, once it owns a slave whose device is always ready. */
  ghost function Rank<D>(m: MRead, h: Hist<D>, peer: Option<nat>, s: ReadFsm<D>): nat {
    if !m.busy then 0
    else if peer.None? then 1
    else if s.st == REnd then 2
    else if s.st == RInit || |h.vals| > h.op.len then h.op.len + 4
    else h.op.len + 3 - |h.vals|
  }

  lemma LinkProgress<D>(g: Config<D>, m: MRead, r: ReadSl<D>, h: Hist<D>, s: ReadFsm<D>,
                        start: Option<Op>, dev: ReadDev<D>, j: nat)
    requires LinkInv(g, m, r, h, Some(j), s) && dev.setupOk && dev.ok
    ensures
      var m' := MReadStep(m, start, r);
      var (s', call) := ReadStep(s, m'.out, dev, g.zero);
      var ends := m'.out.ready && s.out.last;
      var h' := Observe(h, m, start, r, j, call);
      && Rank(m', h', if ends then None else Some(j), s') == Rank(m, h, Some(j), s) - 1
      && h'.op == h.op && h'.started && m'.busy && (ends ==> s.out.valid)
  {
  }

  // ----- The whole fabric -----

  ghost predicate LinkOk<D>(g: Config<D>, f: Fabric<D>, i: nat)
    requires Sized(g, f) && i < g.masters
  {
    var peer := PeerOf(f.h, i);
    LinkInv(g, f.m[i], f.rin[i], f.hist[i], peer,
            if peer.Some? && peer.value < g.slaves then f.s[peer.value] else ReadReset(g.zero))
  }

  ghost predicate SlaveOk<D>(g: Config<D>, f: Fabric<D>, j: nat)
    requires Sized(g, f) && j < g.slaves
  {
    !f.h.s[j].active ==> IdleSlave(f.s[j])
  }

  ghost predicate Inv<D>(g: Config<D>, f: Fabric<D>) {
    && Sized(g, f) && Matched(f.h)
    && (forall i :: 0 <= i < g.masters ==> LinkOk(g, f, i))
    && (forall j :: 0 <= j < g.slaves ==> SlaveOk(g, f, j))
  }

  ghost predicate Fair<D>(g: Config<D>, f: Fabric<D>, c: Cyc<D>) {
    && SizedCyc(g, c) && |f.s| == g.slaves
    && forall j :: 0 <= j < g.slaves ==> Steady(f.s[j], c.dev[j])
  }

  lemma TickUnconnected<D>(g: Config<D>, f: Fabric<D>, c: Cyc<D>, i: nat)
    requires Inv(g, f) && Fair(g, f, c) && i < g.masters && Conn(f.h, Wires(g, f, c), i) == None
    ensures Sized(g, Tick(g, f, c)) && LinkOk(g, Tick(g, f, c), i)
  {
    assert LinkOk(g, f, i);
    Connection(f.h, Wires(g, f, c), i);
    LinkIdleStep(g, f.m[i], f.rin[i], f.hist[i], ReadReset(g.zero), ReadReset(g.zero), c.start[i]);
  }

  /** The entries of a connected master, and of its slave, after a cycle. */
  lemma TickEntries<D>(g: Config<D>, f: Fabric<D>, c: Cyc<D>, i: nat, j: nat)
    requires Sized(g, f) && SizedCyc(g, c) && Matched(f.h) && i < g.masters && Conn(f.h, Wires(g, f, c), i) == Some(j)
    ensures j < g.slaves
    ensures
      var f', m', peer := Tick(g, f, c), MReadStep(f.m[i], c.start[i], f.rin[i]), PeerOf(f.h, i);
      var (s', call) := ReadStep(f.s[j], m'.out, c.dev[j], g.zero);
      && Sized(g, f') && f'.m[i] == m' && f'.rin[i] == f.s[j].out && f'.s[j] == s'
      && f'.hist[i] == Observe(f.hist[i], f.m[i], c.start[i], f.rin[i], j, call)
      && (peer == Some(j) || (peer == None && !f.h.s[j].active && m'.out.raddr.valid && g.decode(m'.out.raddr.addr) == j))
      && PeerOf(f'.h, i) == (if peer == Some(j) && m'.out.ready && f.s[j].out.last then None else Some(j))
  {
    Connection(f.h, Wires(g, f, c), i);
  }

  lemma TickConnected<D>(g: Config<D>, f: Fabric<D>, c: Cyc<D>, i: nat, j: nat)
    requires Inv(g, f) && Fair(g, f, c) && i < g.masters && Conn(f.h, Wires(g, f, c), i) == Some(j)
    ensures Sized(g, Tick(g, f, c)) && LinkOk(g, Tick(g, f, c), i)
  {
    TickEntries(g, f, c, i, j);
    assert LinkOk(g, f, i) && SlaveOk(g, f, j) && Steady(f.s[j], c.dev[j]);
    LinkBusyStep(g, f.m[i], f.rin[i], f.hist[i], PeerOf(f.h, i), f.s[j], c.start[i], c.dev[j], j);
  }

  lemma TickMaster<D>(g: Config<D>, f: Fabric<D>, c: Cyc<D>, i: nat)
    requires Inv(g, f) && Fair(g, f, c) && i < g.masters
    ensures Sized(g, Tick(g, f, c)) && LinkOk(g, Tick(g, f, c), i)
  {
    match Conn(f.h, Wires(g, f, c), i)
    case None => TickUnconnected(g, f, c, i);
    case Some(j) => TickConnected(g, f, c, i, j);
  }

  lemma TickSlave<D>(g: Config<D>, f: Fabric<D>, c: Cyc<D>, j: nat)
    requires Inv(g, f) && Fair(g, f, c) && j < g.slaves
    ensures Sized(g, Tick(g, f, c)) && SlaveOk(g, Tick(g, f, c), j)
    ensures StepSlave(g, f, c, j).1.DevRead? ==> Owner(f.h, Wires(g, f, c), j).Some?
  {
    var x := Wires(g, f, c);
    assert SlaveOk(g, f, j) && Steady(f.s[j], c.dev[j]);
    Ownership(f.h, x, j);
    match Owner(f.h, x, j)
    case None =>
    case Some(i) =>
      TickEntries(g, f, c, i, j);
      assert LinkOk(g, f, i);
      LinkBusyStep(g, f.m[i], f.rin[i], f.hist[i], PeerOf(f.h, i), f.s[j], c.start[i], c.dev[j], j);
  }

  lemma TickInv<D>(g: Config<D>, f: Fabric<D>, c: Cyc<D>)
    requires Inv(g, f) && Fair(g, f, c)
    ensures Inv(g, Tick(g, f, c))
  {
    OwnershipMatching(f.h, Wires(g, f, c));
    forall i | 0 <= i < g.masters ensures LinkOk(g, Tick(g, f, c), i) { TickMaster(g, f, c, i); }
    forall j | 0 <= j < g.slaves ensures SlaveOk(g, Tick(g, f, c), j) { TickSlave(g, f, c, j); }
  }

  // ----- Every run from reset -----

  function Start<D>(g: Config<D>): Fabric<D> {
    Fabric(seq(g.masters, _ => MREAD_RESET), seq(g.masters, _ => ReadSlReset(g.zero)),
           Crossbar.Reset(g.masters, g.slaves), seq(g.slaves, _ => ReadReset(g.zero)),
           seq(g.masters, _ => Hist(false, Op(0, 0, 0), [], [], [], [])))
  }

  ghost function Reach<D>(g: Config<D>, cs: seq<Cyc<D>>): (f: Fabric<D>)
    requires g.Valid() && forall n :: 0 <= n < |cs| ==> SizedCyc(g, cs[n])
    ensures Sized(g, f)
  {
    if cs == [] then Start(g) else Tick(g, Reach(g, cs[..|cs| - 1]), cs[|cs| - 1])
  }

  /** In every cycle of the run, a device that has been ready in a burst stays ready. */
  ghost predicate FairRun<D>(g: Config<D>, cs: seq<Cyc<D>>) {
    && g.Valid() && (forall n :: 0 <= n < |cs| ==> SizedCyc(g, cs[n]))
    && forall n :: 0 <= n < |cs| ==> Fair(g, Reach(g, cs[..n]), cs[n])
  }

  lemma {:induction false} ReachInv<D>(g: Config<D>, cs: seq<Cyc<D>>)
    requires FairRun(g, cs)
    ensures Inv(g, Reach(g, cs))
  {
    if cs == [] {
      forall i | 0 <= i < g.masters ensures LinkOk(g, Start(g), i) {}
    } else {
      var before := cs[..|cs| - 1];
      forall n | 0 <= n < |before| ensures Fair(g, Reach(g, before[..n]), before[n]) {
        assert before[..n] == cs[..n];
      }
      ReachInv(g, before);
      assert Fair(g, Reach(g, before), cs[|cs| - 1]);
      TickInv(g, Reach(g, before), cs[|cs| - 1]);
    }
  }

  // ----- Completion -----

  ghost function RankOf<D>(g: Config<D>, f: Fabric<D>, i: nat): nat
    requires Sized(g, f) && i < g.masters
  {
    var peer := PeerOf(f.h, i);
    Rank(f.m[i], f.hist[i], peer, if peer.Some? && peer.value < g.slaves then f.s[peer.value] else ReadReset(g.zero))
  }

  /** Master i owns slave j, or has let go of it with the last beat still on its channel. */
  ghost predicate Served<D>(g: Config<D>, f: Fabric<D>, i: nat, j: nat)
    requires Sized(g, f) && i < g.masters
  {
    f.m[i].busy && (PeerOf(f.h, i) == Some(j) || (PeerOf(f.h, i) == None && f.rin[i].valid))
  }

  lemma TickOwned<D>(g: Config<D>, f: Fabric<D>, c: Cyc<D>, i: nat, j: nat)
    requires Inv(g, f) && Fair(g, f, c) && i < g.masters && j < g.slaves && PeerOf(f.h, i) == Some(j)
    requires c.dev[j].setupOk && c.dev[j].ok
    ensures
      var f' := Tick(g, f, c);
      && Sized(g, f') && RankOf(g, f', i) == RankOf(g, f, i) - 1
      && f'.hist[i].op == f.hist[i].op && f'.hist[i].started && Served(g, f', i, j)
  {
    assert LinkOk(g, f, i);
    Connection(f.h, Wires(g, f, c), i);
    LinkProgress(g, f.m[i], f.rin[i], f.hist[i], f.s[j], c.start[i], c.dev[j], j);
  }

  lemma TickReleased<D>(g: Config<D>, f: Fabric<D>, c: Cyc<D>, i: nat)
    requires Inv(g, f) && Fair(g, f, c) && i < g.masters
    requires f.m[i].busy && PeerOf(f.h, i) == None && f.rin[i].valid
    ensures
      var f' := Tick(g, f, c);
      Sized(g, f') && !f'.m[i].busy && f'.hist[i].op == f.hist[i].op && f'.hist[i].started
  {
    assert LinkOk(g, f, i);
  }

  ghost predicate InService<D>(g: Config<D>, f: Fabric<D>, i: nat, j: nat) {
    Inv(g, f) && i < g.masters && j < g.slaves && Served(g, f, i, j)
  }

  /** Master i has finished operation op. */
  ghost predicate Finished<D>(g: Config<D>, f: Fabric<D>, i: nat, op: Op) {
    Sized(g, f) && i < g.masters && !f.m[i].busy && f.hist[i].op == op && Delivered(g, f.hist[i])
  }

  /** One cycle to f', with the device of slave j ready. */
  ghost predicate Hop<D>(g: Config<D>, f: Fabric<D>, c: Cyc<D>, f': Fabric<D>, j: nat) {
    && Sized(g, f) && Fair(g, f, c) && f' == Tick(g, f, c)
    && j < g.slaves && c.dev[j].setupOk && c.dev[j].ok
  }

  lemma HopServed<D>(g: Config<D>, f: Fabric<D>, c: Cyc<D>, f': Fabric<D>, i: nat, j: nat)
    requires InService(g, f, i, j) && Hop(g, f, c, f', j)
    ensures Sized(g, f') && RankOf(g, f', i) == RankOf(g, f, i) - 1
    ensures if f'.m[i].busy then InService(g, f', i, j) && f'.hist[i].op == f.hist[i].op
            else Finished(g, f', i, f.hist[i].op)
  {
    if PeerOf(f.h, i) == Some(j) {
      TickOwned(g, f, c, i, j);
    } else {
      TickReleased(g, f, c, i);
    }
    TickInv(g, f, c);
    assert LinkOk(g, f', i);
  }

  lemma BusyRank<D>(g: Config<D>, f: Fabric<D>, i: nat)
    requires Inv(g, f) && i < g.masters && f.m[i].busy
    ensures 1 <= RankOf(g, f, i) <= f.hist[i].op.len + 4
  {
    assert LinkOk(g, f, i);
  }

  /** Completion: from any state that keeps the invariant, as every reachable state does, a read whose slave's device
      is ready is over, with all its beats delivered, exactly RankOf cycles later, and that is at most len+4. */
  lemma {:induction false} ServedReadCompletes<D>(g: Config<D>, fs: seq<Fabric<D>>, cs: seq<Cyc<D>>, i: nat, j: nat)
    requires |fs| == |cs| + 1 && InService(g, fs[0], i, j)
    requires forall k :: 0 <= k < |cs| ==> Hop(g, fs[k], cs[k], fs[k + 1], j)
    requires |cs| == RankOf(g, fs[0], i)
    ensures |cs| <= fs[0].hist[i].op.len + 4
    ensures Finished(g, fs[|cs|], i, fs[0].hist[i].op)
    decreases |cs|
  {
    BusyRank(g, fs[0], i);
    assert Hop(g, fs[0], cs[0], fs[0 + 1], j);
    HopServed(g, fs[0], cs[0], fs[1], i, j);
    if fs[1].m[i].busy {
      ServedReadCompletes(g, fs[1..], cs[1..], i, j);
    }
  }

  /** Reads end to end, in every reachable state: a master whose operation is over latched exactly the len+1
      values that exactly len+1 device reads at the decoded slave returned, in order, each with an OKAY response;
      a master still busy has latched a prefix of them, and no more than len+1 were made; an idle one drives the
      reset values. */
  lemma ReadsEndToEnd<D>(g: Config<D>, cs: seq<Cyc<D>>, i: nat)
    requires FairRun(g, cs) && i < g.masters
    ensures
      var f := Reach(g, cs);
      var h := f.hist[i];
      && (!f.m[i].busy && h.started ==> Delivered(g, h))
      && (f.m[i].busy ==> SitesOk(g, h) && RespsOk(h) && h.got <= h.vals && |h.vals| <= h.op.len + 1)
      && (!f.m[i].busy ==> f.m[i].out == READ_MA_RESET)
  {
    ReachInv(g, cs);
    assert LinkOk(g, Reach(g, cs), i);
  }

  /** No device read is anonymous: a slave asks its device only while it is connected to exactly one master,
      which is busy with an operation decoded to that slave, so every read is recorded for one operation. */
  lemma NoStrayReads<D>(g: Config<D>, cs: seq<Cyc<D>>, c: Cyc<D>, j: nat)
    requires FairRun(g, cs) && Fair(g, Reach(g, cs), c) && j < g.slaves
    requires StepSlave(g, Reach(g, cs), c, j).1.DevRead?
    ensures
      var f := Reach(g, cs);
      var x := Wires(g, f, c);
      exists i :: 0 <= i < g.masters && Conn(f.h, x, i) == Some(j) && f.m[i].busy &&
                  g.decode(f.hist[i].op.addr) == j &&
                  forall i' :: 0 <= i' < g.masters && Conn(f.h, x, i') == Some(j) ==> i' == i
  {
    var f := Reach(g, cs);
    var x := Wires(g, f, c);
    ReachInv(g, cs);
    TickSlave(g, f, c, j);
    Ownership(f.h, x, j);
    var i := Owner(f.h, x, j).value;
    Connection(f.h, x, i);
    assert LinkOk(g, f, i) && SlaveOk(g, f, j);
    forall i' | 0 <= i' < g.masters && Conn(f.h, x, i') == Some(j) ensures i' == i {
      ConnOwner(f.h, x, i', j);
    }
  }
}
