/** Reads whose device stalls in mid-burst. The fabric's theorems assume that no device does; here is what happens when
    one does, through masters, crossbar and slaves, for stalls of any length and any data: the operation ends, but the
    crossbar does not release the slave, and the master's next operation goes to that slave. A read is released if and
    only if its device did not stall. */
module ReadStall {
  import opened Axi
  import opened Master
  import opened Slave
  import opened Crossbar
  import opened ReadFabric

  // ----- One master with the slave it owns -----

  /** One connected cycle of master, channel, slave and observer, the crossbar left aside. */
  datatype Link<D> = Link(m: MRead, r: ReadSl<D>, h: Hist<D>, s: ReadFsm<D>)

  function LinkStep<D>(zero: D, l: Link<D>, start: Option<Op>, dev: ReadDev<D>, j: nat): Link<D> {
    var m' := MReadStep(l.m, start, l.r);
    var (s', call) := ReadStep(l.s, m'.out, dev, zero);
    Link(m', l.s.out, Observe(l.h, l.m, start, l.r, j, call), s')
  }

  /** Without a steady device delivery fails: if the device stalls in mid-burst and then answers d1, the master, two
      cycles later, has latched the beat before the stall twice. So what it latched is still what the device returned
      if and only if d1 happens to carry that same beat again. */
  lemma StallDoublesBeat<D>(g: Config<D>, l: Link<D>, x0: Option<Op>, d0: ReadDev<D>, x1: Option<Op>, d1: ReadDev<D>,
                            x2: Option<Op>, d2: ReadDev<D>, j: nat)
    requires LinkInv(g, l.m, l.r, l.h, Some(j), l.s) && !Steady(l.s, d0) && d1.ok
    ensures
      var h3 := LinkStep(g.zero, LinkStep(g.zero, LinkStep(g.zero, l, x0, d0, j), x1, d1, j), x2, d2, j).h;
      var n := |l.h.vals|;
      && n > 0 && h3.got == l.h.vals + [l.h.vals[n - 1]] && l.h.vals + [d1.data] <= h3.vals
      && (h3.got <= h3.vals <==> d1.data == l.h.vals[n - 1])
  {
    var l1 := LinkStep(g.zero, l, x0, d0, j);
    var l2 := LinkStep(g.zero, l1, x1, d1, j);
    var l3 := LinkStep(g.zero, l2, x2, d2, j);
    var n := |l.h.vals|;
    assert l2.h.vals == l.h.vals + [d1.data] && l2.h.vals <= l3.h.vals;
    assert l3.h.got == l.h.vals + [l.h.vals[n - 1]];
    assert l3.h.got[n] == l.h.vals[n - 1] && l2.h.vals[n] == d1.data;
    PrefixOf(l3.h.got, l2.h.vals, l3.h.vals);
  }

  lemma PrefixOf<T>(a: seq<T>, b: seq<T>, c: seq<T>)
    requires |a| == |b| && b <= c
    ensures a <= c <==> a == b
  {
  }

  /** After a stall: the beat before it is on the channel and still in the slave's register, so from now on the master
      latches one beat in every cycle and is done before it could take the slave's last beat. */
  ghost predicate Lost<D>(l: Link<D>) {
    var n := |l.h.vals|;
    if !l.m.busy then !l.m.out.ready && !l.m.out.raddr.valid
    else
      && l.m.gotAddr && !l.m.gotData && l.m.out.ready && !l.m.out.raddr.valid
      && l.m.count + |l.h.got| == l.h.op.len && n <= |l.h.got| + 1
      && l.r.valid && l.s.out.valid && l.s.st != RInit
      && (if l.s.st == RAddr && !l.s.burstEnd then l.s.count + n == l.h.op.len && !l.s.out.last
          else n == l.h.op.len + 1)
  }

  /** The crossbar releases the slave in this cycle. */
  predicate Releases<D>(l: Link<D>, start: Option<Op>) {
    MReadStep(l.m, start, l.r).out.ready && l.s.out.last
  }

  lemma StallLoses<D>(g: Config<D>, l: Link<D>, start: Option<Op>, dev: ReadDev<D>, j: nat)
    requires LinkInv(g, l.m, l.r, l.h, Some(j), l.s) && !Steady(l.s, dev)
    ensures
      var l' := LinkStep(g.zero, l, start, dev, j);
      Lost(l') && l'.m.busy && l'.h.op == l.h.op && !Releases(l, start)
  {
  }

  /** It stays so, whatever the device answers, until the master starts its next operation; the slave is not released,
      and the operation ends when its last beat is counted. */
  lemma LostStays<D>(zero: D, l: Link<D>, start: Option<Op>, dev: ReadDev<D>, j: nat)
    requires Lost(l) && (l.m.busy || start.None?)
    ensures
      var l' := LinkStep(zero, l, start, dev, j);
      && Lost(l') && l'.h.op == l.h.op && !Releases(l, start)
      && (l.m.busy ==> if l.m.count == 0 then !l'.m.busy else l'.m.busy && l'.m.count == l.m.count - 1)
  {
  }

  // ----- Through the crossbar -----

  ghost function LinkOf<D>(g: Config<D>, f: Fabric<D>, i: nat, j: nat): Link<D>
    requires Sized(g, f) && i < g.masters && j < g.slaves
  {
    Link(f.m[i], f.rin[i], f.hist[i], f.s[j])
  }

  /** A cycle of the fabric, seen from a master and the slave it owns; no invariant but the crossbar's is needed. */
  lemma TickIsLinkStep<D>(g: Config<D>, f: Fabric<D>, c: Cyc<D>, i: nat, j: nat)
    requires Sized(g, f) && SizedCyc(g, c) && Matched(f.h) && i < g.masters && j < g.slaves && PeerOf(f.h, i) == Some(j)
    ensures
      var f' := Tick(g, f, c);
      && Sized(g, f') && Matched(f'.h)
      && LinkOf(g, f', i, j) == LinkStep(g.zero, LinkOf(g, f, i, j), c.start[i], c.dev[j], j)
      && PeerOf(f'.h, i) == (if Releases(LinkOf(g, f, i, j), c.start[i]) then None else Some(j))
  {
    var x := Wires(g, f, c);
    OwnershipMatching(f.h, x);
    Connection(f.h, x, i);
  }

  /** Master i is served by slave j as it should be. */
  ghost predicate Owns<D>(g: Config<D>, f: Fabric<D>, i: nat, j: nat) {
    && Sized(g, f) && Matched(f.h) && i < g.masters && j < g.slaves && PeerOf(f.h, i) == Some(j)
    && LinkInv(g, f.m[i], f.rin[i], f.hist[i], Some(j), f.s[j])
  }

  /** The slave has released master i, with the last beat still on its channel. */
  ghost predicate Let<D>(g: Config<D>, f: Fabric<D>, i: nat, j: nat) {
    && Sized(g, f) && Matched(f.h) && i < g.masters && j < g.slaves && PeerOf(f.h, i) == None
    && f.m[i].busy && f.m[i].gotAddr && IdleSlave(f.s[j])
    && LinkInv(g, f.m[i], f.rin[i], f.hist[i], None, f.s[j])
  }

  /** Master i has been served by slave j with a stall, and still owns it. */
  ghost predicate Held<D>(g: Config<D>, f: Fabric<D>, i: nat, j: nat) {
    && Sized(g, f) && Matched(f.h) && i < g.masters && j < g.slaves && PeerOf(f.h, i) == Some(j)
    && Lost(LinkOf(g, f, i, j))
  }

  lemma TickSteady<D>(g: Config<D>, f: Fabric<D>, c: Cyc<D>, i: nat, j: nat)
    requires Owns(g, f, i, j) && SizedCyc(g, c) && Steady(f.s[j], c.dev[j])
    ensures var f' := Tick(g, f, c); Owns(g, f', i, j) || Let(g, f', i, j)
    ensures Tick(g, f, c).m[i].busy && Tick(g, f, c).hist[i].op == f.hist[i].op
  {
    TickIsLinkStep(g, f, c, i, j);
    LinkBusyStep(g, f.m[i], f.rin[i], f.hist[i], Some(j), f.s[j], c.start[i], c.dev[j], j);
    SteadyBusy(g, LinkOf(g, f, i, j), c.start[i], c.dev[j], j);
  }

  lemma SteadyBusy<D>(g: Config<D>, l: Link<D>, start: Option<Op>, dev: ReadDev<D>, j: nat)
    requires LinkInv(g, l.m, l.r, l.h, Some(j), l.s) && Steady(l.s, dev)
    ensures
      var l' := LinkStep(g.zero, l, start, dev, j);
      l'.m.busy && l'.h.op == l.h.op && (Releases(l, start) ==> l'.m.gotAddr)
  {
  }

  lemma TickLet<D>(g: Config<D>, f: Fabric<D>, c: Cyc<D>, i: nat, j: nat)
    requires Let(g, f, i, j) && SizedCyc(g, c)
    ensures
      var f' := Tick(g, f, c);
      && Sized(g, f') && !f'.m[i].busy && PeerOf(f'.h, i) == None
      && f'.hist[i].op == f.hist[i].op && Delivered(g, f'.hist[i])
  {
    var x := Wires(g, f, c);
    Connection(f.h, x, i);
    LinkIdleStep(g, f.m[i], f.rin[i], f.hist[i], f.s[j], f.s[j], c.start[i]);
  }

  lemma TickStall<D>(g: Config<D>, f: Fabric<D>, c: Cyc<D>, i: nat, j: nat)
    requires Owns(g, f, i, j) && SizedCyc(g, c) && !Steady(f.s[j], c.dev[j])
    ensures Held(g, Tick(g, f, c), i, j)
    ensures Tick(g, f, c).m[i].busy && Tick(g, f, c).hist[i].op == f.hist[i].op
  {
    TickIsLinkStep(g, f, c, i, j);
    StallLoses(g, LinkOf(g, f, i, j), c.start[i], c.dev[j], j);
  }

  lemma TickHeld<D>(g: Config<D>, f: Fabric<D>, c: Cyc<D>, i: nat, j: nat)
    requires Held(g, f, i, j) && SizedCyc(g, c) && (f.m[i].busy || c.start[i].None?)
    ensures
      var m, m' := f.m[i], Tick(g, f, c).m[i];
      m.busy ==> if m.count == 0 then !m'.busy else m'.busy && m'.count == m.count - 1
    ensures Held(g, Tick(g, f, c), i, j) && Tick(g, f, c).hist[i].op == f.hist[i].op
  {
    TickIsLinkStep(g, f, c, i, j);
    LostStays(g.zero, LinkOf(g, f, i, j), c.start[i], c.dev[j], j);
  }

  // ----- A whole operation -----

  /** The states fs of any run of the cycles cs, whatever the devices do. */
  ghost predicate Path<D>(g: Config<D>, fs: seq<Fabric<D>>, cs: seq<Cyc<D>>) {
    |fs| == |cs| + 1 && forall k :: 0 <= k < |cs| ==> Moves(g, fs[k], cs[k], fs[k + 1])
  }

  ghost predicate Moves<D>(g: Config<D>, f: Fabric<D>, c: Cyc<D>, f': Fabric<D>) {
    Sized(g, f) && SizedCyc(g, c) && f' == Tick(g, f, c)
  }

  lemma PathTail<D>(g: Config<D>, fs: seq<Fabric<D>>, cs: seq<Cyc<D>>)
    requires Path(g, fs, cs) && cs != []
    ensures Moves(g, fs[0], cs[0], fs[1]) && Path(g, fs[1..], cs[1..])
  {
    assert Moves(g, fs[0], cs[0], fs[0 + 1]);
    forall k | 0 <= k < |cs| - 1 ensures Moves(g, fs[1..][k], cs[1..][k], fs[1..][k + 1]) {
      assert Moves(g, fs[k + 1], cs[k + 1], fs[k + 1 + 1]);
    }
  }

  /** Master i is at work in all states but the last. */
  ghost predicate Working<D>(g: Config<D>, fs: seq<Fabric<D>>, i: nat) {
    forall k :: 0 <= k < |fs| - 1 ==> i < |fs[k].m| && fs[k].m[i].busy
  }

  lemma WorkingTail<D>(g: Config<D>, fs: seq<Fabric<D>>, i: nat)
    requires |fs| > 1
    ensures Working(g, fs, i) <==> i < |fs[0].m| && fs[0].m[i].busy && Working(g, fs[1..], i)
  {
    if Working(g, fs, i) {
      forall k | 0 <= k < |fs| - 2 ensures i < |fs[1..][k].m| && fs[1..][k].m[i].busy {
        assert fs[1..][k] == fs[k + 1];
      }
    }
    if i < |fs[0].m| && fs[0].m[i].busy && Working(g, fs[1..], i) {
      forall k | 0 <= k < |fs| - 1 ensures i < |fs[k].m| && fs[k].m[i].busy {
        assert k > 0 ==> fs[k] == fs[1..][k - 1];
      }
    }
  }

  /** Done, and the slave still owned. */
  ghost predicate Kept<D>(g: Config<D>, f: Fabric<D>, i: nat, j: nat, op: Op) {
    Held(g, f, i, j) && !f.m[i].busy && f.hist[i].op == op
  }

  /** Not done yet: n beats to go, besides the one on the channel. */
  ghost predicate Counting<D>(g: Config<D>, f: Fabric<D>, i: nat, j: nat, op: Op, n: int) {
    Held(g, f, i, j) && f.m[i].busy && f.hist[i].op == op && f.m[i].count == n
  }

  lemma CountingMoves<D>(g: Config<D>, f: Fabric<D>, c: Cyc<D>, f': Fabric<D>, i: nat, j: nat, op: Op, n: nat)
    requires Counting(g, f, i, j, op, n) && Moves(g, f, c, f')
    ensures if n == 0 then Kept(g, f', i, j, op) else Counting(g, f', i, j, op, n - 1)
  {
    HeldMoves(g, f, c, f', i, j);
  }

  lemma {:induction false} CountsDown<D>(g: Config<D>, fs: seq<Fabric<D>>, cs: seq<Cyc<D>>, i: nat, j: nat, op: Op,
                                         n: nat, k: nat)
    requires Path(g, fs, cs) && Counting(g, fs[0], i, j, op, n) && k <= n && k <= |cs|
    ensures Counting(g, fs[k], i, j, op, n - k)
  {
    if k == 0 {
    } else {
      CountsDown(g, fs, cs, i, j, op, n, k - 1);
      assert Moves(g, fs[k - 1], cs[k - 1], fs[k - 1 + 1]);
      CountingMoves(g, fs[k - 1], cs[k - 1], fs[k], i, j, op, n - (k - 1));
    }
  }

  /** Once lost, the operation ends after exactly count+1 cycles, with the slave still owned. */
  lemma HeldEnds<D>(g: Config<D>, fs: seq<Fabric<D>>, cs: seq<Cyc<D>>, i: nat, j: nat, op: Op, n: nat)
    requires Path(g, fs, cs) && Counting(g, fs[0], i, j, op, n) && n < |cs|
    ensures Kept(g, fs[n + 1], i, j, op)
  {
    CountsDown(g, fs, cs, i, j, op, n, n);
    assert Moves(g, fs[n], cs[n], fs[n + 1]);
    CountingMoves(g, fs[n], cs[n], fs[n + 1], i, j, op, 0);
  }

  lemma HeldMoves<D>(g: Config<D>, f: Fabric<D>, c: Cyc<D>, f': Fabric<D>, i: nat, j: nat)
    requires Held(g, f, i, j) && Moves(g, f, c, f') && (f.m[i].busy || c.start[i].None?)
    ensures Held(g, f', i, j) && f'.hist[i].op == f.hist[i].op
    ensures f.m[i].busy ==>
              if f.m[i].count == 0 then !f'.m[i].busy else f'.m[i].busy && f'.m[i].count == f.m[i].count - 1
  {
    TickHeld(g, f, c, i, j);
  }

  /** Master i starts no operation in these cycles. */
  ghost predicate NoStart<D>(fs: seq<Fabric<D>>, cs: seq<Cyc<D>>, i: nat) {
    |cs| <= |fs| && forall k :: 0 <= k < |cs| ==> NoStartAt(fs[k], cs[k], i)
  }

  ghost predicate NoStartAt<D>(f: Fabric<D>, c: Cyc<D>, i: nat) {
    i < |f.m| && i < |c.start| && (f.m[i].busy || c.start[i].None?)
  }

  lemma {:induction false} HeldUntilStart<D>(g: Config<D>, fs: seq<Fabric<D>>, cs: seq<Cyc<D>>, i: nat, j: nat)
    requires Path(g, fs, cs) && Held(g, fs[0], i, j) && NoStart(fs, cs, i)
    ensures Held(g, fs[|cs|], i, j)
    decreases |cs|
  {
    if cs == [] {
    } else {
      PathTail(g, fs, cs);
      assert NoStartAt(fs[0], cs[0], i);
      HeldMoves(g, fs[0], cs[0], fs[1], i, j);
      HeldUntilStart(g, fs[1..], cs[1..], i, j);
    }
  }

  lemma WorkingNoStart<D>(g: Config<D>, fs: seq<Fabric<D>>, cs: seq<Cyc<D>>, i: nat)
    requires Path(g, fs, cs) && Working(g, fs, i) && i < g.masters
    ensures NoStart(fs, cs, i)
  {
    forall k | 0 <= k < |cs| ensures NoStartAt(fs[k], cs[k], i) {
      assert Moves(g, fs[k], cs[k], fs[k + 1]);
    }
  }

  /** In every cycle k the device of slave j, once ready in a burst, stays ready. */
  ghost predicate NeverStalls<D>(g: Config<D>, fs: seq<Fabric<D>>, cs: seq<Cyc<D>>, j: nat)
    requires Path(g, fs, cs) && j < g.slaves
  {
    forall k :: 0 <= k < |cs| ==> SteadyAt(g, fs, cs, j, k)
  }

  ghost predicate SteadyAt<D>(g: Config<D>, fs: seq<Fabric<D>>, cs: seq<Cyc<D>>, j: nat, k: nat)
    requires Path(g, fs, cs) && j < g.slaves && k < |cs|
  {
    assert Moves(g, fs[k], cs[k], fs[k + 1]);
    Steady(fs[k].s[j], cs[k].dev[j])
  }

  lemma NeverStallsTail<D>(g: Config<D>, fs: seq<Fabric<D>>, cs: seq<Cyc<D>>, j: nat)
    requires Path(g, fs, cs) && j < g.slaves && cs != [] && Path(g, fs[1..], cs[1..])
    ensures NeverStalls(g, fs, cs, j) <==> SteadyAt(g, fs, cs, j, 0) && NeverStalls(g, fs[1..], cs[1..], j)
  {
    if NeverStalls(g, fs, cs, j) {
      forall k | 0 <= k < |cs| - 1 ensures SteadyAt(g, fs[1..], cs[1..], j, k) {
        assert SteadyAt(g, fs, cs, j, k + 1);
      }
    }
    if SteadyAt(g, fs, cs, j, 0) && NeverStalls(g, fs[1..], cs[1..], j) {
      forall k | 0 <= k < |cs| ensures SteadyAt(g, fs, cs, j, k) {
        assert k > 0 ==> SteadyAt(g, fs[1..], cs[1..], j, k - 1);
      }
    }
  }

  /** How an operation of master i at slave j has ended. */
  ghost predicate Ended<D>(g: Config<D>, f: Fabric<D>, i: nat, j: nat, clean: bool) {
    && Sized(g, f) && i < g.masters
    && if clean then PeerOf(f.h, i) == None && Delivered(g, f.hist[i]) else Held(g, f, i, j)
  }

  /** Exactly when a read is served: from the state in which master i gets slave j to the one in which it is done, for
      any device answers and anything the others do, the crossbar has released the slave if and only if the device
      never stalled; then everything is delivered, and otherwise the master still owns the slave. */
  lemma ReleasedIffSteady<D>(g: Config<D>, fs: seq<Fabric<D>>, cs: seq<Cyc<D>>, i: nat, j: nat)
    requires Path(g, fs, cs) && Owns(g, fs[0], i, j) && Working(g, fs, i)
    requires Sized(g, fs[|cs|]) && !fs[|cs|].m[i].busy
    ensures PeerOf(fs[|cs|].h, i) == (if NeverStalls(g, fs, cs, j) then None else Some(j))
    ensures NeverStalls(g, fs, cs, j) ==> Delivered(g, fs[|cs|].hist[i])
    ensures !NeverStalls(g, fs, cs, j) ==> Held(g, fs[|cs|], i, j)
  {
    EndsAs(g, fs, cs, i, j);
  }

  lemma {:induction false} EndsAs<D>(g: Config<D>, fs: seq<Fabric<D>>, cs: seq<Cyc<D>>, i: nat, j: nat)
    requires Path(g, fs, cs) && Owns(g, fs[0], i, j) && Working(g, fs, i)
    requires Sized(g, fs[|cs|]) && !fs[|cs|].m[i].busy
    ensures Ended(g, fs[|cs|], i, j, NeverStalls(g, fs, cs, j))
    decreases |cs|
  {
    if cs == [] {
      OwnsBusy(g, fs[0], i, j);
    } else {
      PathTail(g, fs, cs);
      NeverStallsTail(g, fs, cs, j);
      WorkingTail(g, fs, i);
      OwnerMoves(g, fs[0], cs[0], fs[1], i, j);
      if !SteadyAt(g, fs, cs, j, 0) {
        WorkingNoStart(g, fs[1..], cs[1..], i);
        HeldUntilStart(g, fs[1..], cs[1..], i, j);
      } else if Let(g, fs[1], i, j) {
        LetEnds(g, fs[1..], cs[1..], i, j);
      } else {
        EndsAs(g, fs[1..], cs[1..], i, j);
      }
    }
  }

  lemma OwnsBusy<D>(g: Config<D>, f: Fabric<D>, i: nat, j: nat)
    requires Owns(g, f, i, j)
    ensures f.m[i].busy
  {
  }

  lemma OwnerMoves<D>(g: Config<D>, f: Fabric<D>, c: Cyc<D>, f': Fabric<D>, i: nat, j: nat)
    requires Owns(g, f, i, j) && Moves(g, f, c, f')
    ensures if Steady(f.s[j], c.dev[j]) then Owns(g, f', i, j) || Let(g, f', i, j) else Held(g, f', i, j)
  {
    if Steady(f.s[j], c.dev[j]) { TickSteady(g, f, c, i, j); } else { TickStall(g, f, c, i, j); }
  }

  lemma LetEnds<D>(g: Config<D>, fs: seq<Fabric<D>>, cs: seq<Cyc<D>>, i: nat, j: nat)
    requires Path(g, fs, cs) && Let(g, fs[0], i, j) && Working(g, fs, i)
    requires Sized(g, fs[|cs|]) && !fs[|cs|].m[i].busy
    ensures NeverStalls(g, fs, cs, j) && Ended(g, fs[|cs|], i, j, true)
  {
    PathTail(g, fs, cs);
    TickLet(g, fs[0], cs[0], i, j);
  }

  /** What a stall leads to, of any length and with any data: from the stall on, up to and including the cycle in which
      master i starts its next operation, it is connected to slave j. So the address of that operation is put before
      slave j, whatever it decodes to, and an idle slave takes it. */
  lemma StalledReadFails<D>(g: Config<D>, fs: seq<Fabric<D>>, cs: seq<Cyc<D>>, c: Cyc<D>, i: nat, j: nat, op: Op)
    requires Path(g, fs, cs) && cs != [] && Owns(g, fs[0], i, j) && !SteadyAt(g, fs, cs, j, 0) && NoStart(fs, cs, i)
    requires Sized(g, fs[|cs|]) && SizedCyc(g, c) && !fs[|cs|].m[i].busy && c.start[i] == Some(op)
    ensures PeerOf(fs[|cs|].h, i) == Some(j) && Astray(g, fs[|cs|], c, i, j, op)
  {
    PathTail(g, fs, cs);
    OwnerMoves(g, fs[0], cs[0], fs[1], i, j);
    forall k | 0 <= k < |cs| - 1 ensures NoStartAt(fs[1..][k], cs[1..][k], i) {
      assert NoStartAt(fs[k + 1], cs[k + 1], i);
    }
    HeldUntilStart(g, fs[1..], cs[1..], i, j);
    GoesAstray(g, fs[|cs|], c, i, j, op);
  }

  /** The operation that master i starts in this cycle is put before slave j. */
  ghost predicate Astray<D>(g: Config<D>, f: Fabric<D>, c: Cyc<D>, i: nat, j: nat, op: Op)
    requires Sized(g, f) && SizedCyc(g, c) && i < g.masters && j < g.slaves
  {
    var x, out, (s', call) := Wires(g, f, c), StepMaster(f, c, i).out, StepSlave(g, f, c, j);
    && Conn(f.h, x, i) == Some(j) && out.raddr == AddrMa(op.addr, op.size, op.len, true)
    && (s', call) == ReadStep(f.s[j], out, c.dev[j], g.zero) && StepRin(g, f, c, i) == f.s[j].out
    && (f.s[j].st == RInit && c.dev[j].setupOk ==> call == ReadSetup(true) && s'.addr == op.addr)
  }

  lemma GoesAstray<D>(g: Config<D>, f: Fabric<D>, c: Cyc<D>, i: nat, j: nat, op: Op)
    requires Held(g, f, i, j) && SizedCyc(g, c) && !f.m[i].busy && c.start[i] == Some(op)
    ensures Astray(g, f, c, i, j, op)
  {
    Connection(f.h, Wires(g, f, c), i);
  }

  // ----- Whole runs -----

  /** The first cycle of a read: only master i starts, and the devices answer `dev`. */
  ghost function FirstCycle<D>(g: Config<D>, i: nat, op: Op, dev: seq<ReadDev<D>>): Cyc<D> {
    Cyc(seq(g.masters, k => if k == i then Some(op) else None), dev)
  }

  ghost function NextCycle<D>(g: Config<D>, dev: seq<ReadDev<D>>): Cyc<D> {
    Cyc(seq(g.masters, _ => None), dev)
  }

  lemma FirstConnects<D>(g: Config<D>, i: nat, op: Op, dev: seq<ReadDev<D>>)
    requires g.Valid() && i < g.masters && |dev| == g.slaves && dev[g.decode(op.addr)].setupOk
    ensures
      var f, j := Tick(g, Start(g), FirstCycle(g, i, op, dev)), g.decode(op.addr);
      && Sized(g, f) && PeerOf(f.h, i) == Some(j) && f.s[j].st == RAddr && !f.s[j].burstEnd && f.s[j].count == op.len
      && f.m[i].busy && f.m[i].out.ready && !f.s[j].out.valid
  {
    var f, c, j := Start(g), FirstCycle(g, i, op, dev), g.decode(op.addr);
    var x := Wires(g, f, c);
    assert x.target[i] == Some(j) && !f.h.m[i].active;
    GrantsExactlyOne(f.h, x, j);
    var win := Crossbar.Step(f.h, x).s[j].master;
    assert x.target[win] == Some(j);
    assert win == i;
    Connection(f.h, x, i);
  }

  lemma NextDelivers<D>(g: Config<D>, f: Fabric<D>, i: nat, j: nat, dev: seq<ReadDev<D>>)
    requires Inv(g, f) && i < g.masters && j < g.slaves && |dev| == g.slaves && dev[j].ok
    requires PeerOf(f.h, i) == Some(j) && f.s[j].st == RAddr && !f.s[j].burstEnd && f.s[j].count > 0
    ensures
      var f' := Tick(g, f, NextCycle(g, dev));
      && Sized(g, f') && PeerOf(f'.h, i) == Some(j)
      && f'.s[j].st == RAddr && f'.s[j].out.valid && !f'.s[j].burstEnd
  {
    assert LinkOk(g, f, i);
    Connection(f.h, Wires(g, f, NextCycle(g, dev)), i);
  }

  lemma ReadyRun<D>(g: Config<D>, i: nat, op: Op, dev: seq<ReadDev<D>>)
    requires g.Valid() && i < g.masters && |dev| == g.slaves
    requires forall k :: 0 <= k < |dev| ==> dev[k].setupOk && dev[k].ok
    ensures
      var cs := [FirstCycle(g, i, op, dev), NextCycle(g, dev)];
      FairRun(g, cs) && Reach(g, cs) == Tick(g, Tick(g, Start(g), cs[0]), cs[1])
  {
    var cs := [FirstCycle(g, i, op, dev), NextCycle(g, dev)];
    assert cs[..1] == [cs[0]] && [cs[0]][..0] == [] && cs[..0] == [];
    assert Reach(g, cs[..1]) == Tick(g, Start(g), cs[0]);
    forall n | 0 <= n < |cs| ensures Fair(g, Reach(g, cs[..n]), cs[n]) {
    }
  }

  /** Such states are reached: in every configuration, two cycles after any master starts a read of two beats or more
      from reset, its slave is in mid-burst, and a device that is not ready in the next cycle is not steady. */
  lemma MidBurstReached<D>(g: Config<D>, i: nat, op: Op, dev: seq<ReadDev<D>>, stall: ReadDev<D>) returns (cs: seq<Cyc<D>>)
    requires g.Valid() && i < g.masters && op.len > 0 && |dev| == g.slaves && !stall.ok
    requires forall k :: 0 <= k < |dev| ==> dev[k].setupOk && dev[k].ok
    ensures FairRun(g, cs)
    ensures
      var f, j := Reach(g, cs), g.decode(op.addr);
      && Inv(g, f) && PeerOf(f.h, i) == Some(j) && !Steady(f.s[j], stall)
      && LinkInv(g, f.m[i], f.rin[i], f.hist[i], Some(j), f.s[j])
  {
    var c0, j := FirstCycle(g, i, op, dev), g.decode(op.addr);
    cs := [c0, NextCycle(g, dev)];
    ReadyRun(g, i, op, dev);
    FirstConnects(g, i, op, dev);
    ReachInv(g, []);
    TickInv(g, Start(g), c0);
    NextDelivers(g, Tick(g, Start(g), c0), i, j, dev);
    ReachInv(g, cs);
    assert LinkOk(g, Reach(g, cs), i);
  }

  /** In a fair run a master that is done owns no slave. */
  lemma FairRunReleases<D>(g: Config<D>, cs: seq<Cyc<D>>, i: nat)
    requires FairRun(g, cs) && i < g.masters
    ensures !Reach(g, cs).m[i].busy ==> PeerOf(Reach(g, cs).h, i) == None
  {
    ReachInv(g, cs);
    assert LinkOk(g, Reach(g, cs), i);
  }

  /** The first unfair cycle of a run hits a master with the slave it owns. */
  lemma UnfairMeansStall<D>(g: Config<D>, f: Fabric<D>, c: Cyc<D>) returns (i: nat, j: nat)
    requires Inv(g, f) && SizedCyc(g, c) && !Fair(g, f, c)
    ensures Owns(g, f, i, j) && !Steady(f.s[j], c.dev[j])
  {
    j :| 0 <= j < g.slaves && !Steady(f.s[j], c.dev[j]);
    assert SlaveOk(g, f, j);
    i := f.h.s[j].master;
    assert LinkOk(g, f, i);
  }

  lemma UnfairCounts<D>(g: Config<D>, f: Fabric<D>, c: Cyc<D>, f': Fabric<D>) returns (i: nat, j: nat)
    requires Inv(g, f) && Moves(g, f, c, f') && !Fair(g, f, c)
    ensures i < |f'.m| && i < |f'.hist| && Counting(g, f', i, j, f'.hist[i].op, f'.m[i].count)
  {
    i, j := UnfairMeansStall(g, f, c);
    TickStall(g, f, c, i, j);
  }

  /** Every master can finish within these cycles. */
  ghost predicate LongEnough<D>(f: Fabric<D>, cs: seq<Cyc<D>>) {
    forall k :: 0 <= k < |f.m| ==> f.m[k].count < |cs|
  }

  lemma UnfairHolds<D>(g: Config<D>, f: Fabric<D>, c: Cyc<D>, fs: seq<Fabric<D>>, cs: seq<Cyc<D>>)
    returns (i: nat, j: nat, n: nat, op: Op)
    requires Inv(g, f) && !Fair(g, f, c) && Path(g, fs, cs) && Moves(g, f, c, fs[0]) && LongEnough(fs[0], cs)
    ensures n < |fs| && Kept(g, fs[n], i, j, op)
  {
    i, j := UnfairCounts(g, f, c, fs[0]);
    var k := fs[0].m[i].count;
    op := fs[0].hist[i].op;
    HeldEnds(g, fs, cs, i, j, op, k);
    n := k + 1;
  }

  /** The assumption of the fabric's theorems is exact: if a run is fair but for its last cycle, then in every
      continuation, whatever it brings, some master is soon done and still owns its slave. */
  lemma UnfairRunHolds<D>(g: Config<D>, before: seq<Cyc<D>>, c: Cyc<D>, fs: seq<Fabric<D>>, cs: seq<Cyc<D>>)
    returns (i: nat, j: nat, n: nat)
    requires FairRun(g, before) && SizedCyc(g, c) && !Fair(g, Reach(g, before), c)
    requires Path(g, fs, cs) && fs[0] == Tick(g, Reach(g, before), c) && LongEnough(fs[0], cs)
    ensures n < |fs| && Held(g, fs[n], i, j) && !fs[n].m[i].busy && PeerOf(fs[n].h, i) == Some(j)
  {
    ReachInv(g, before);
    var op: Op;
    i, j, n, op := UnfairHolds(g, Reach(g, before), c, fs, cs);
  }
}
