/** Burst writes whose device refuses a beat. The fabric's theorems assume that no device does; here is what happens when
    one does, through masters, crossbar and slaves: master and slave get out of step for good, and the operation never
    ends. A burst write ends if and only if none of its beats is refused. */
module WriteRefusal {
  import opened Axi
  import opened Master
  import opened Slave
  import opened Crossbar
  import opened WriteFabric

  // ----- One master with the slave it owns -----

  /** One connected cycle of master, channel, slave and observer, the crossbar left aside. */
  datatype Link<D> = Link(m: MWrite<D>, w: WriteSl, h: Hist<D>, s: WriteFsm)

  /** What the cycle brings: the start of an operation, the word the core offers, the device's answers. */
  datatype LinkIn<D> = LinkIn(start: Option<Op>, dout: D, dev: WriteDev)

  function LinkStep<D>(zero: D, l: Link<D>, x: LinkIn<D>, j: nat): Link<D> {
    var m' := MWriteStep(l.m, x.start, x.dout, l.w, zero);
    var (s', call) := WriteStep(l.s, m'.out, x.dev);
    Link(m', l.s.out, Observe(l.h, l.m, x.start, x.dout, l.w, j, call, s'.out), s')
  }

  /** The master has nothing more to offer and the slave waits for a beat. */
  predicate Stuck<D>(l: Link<D>) {
    && l.m.busy && l.m.count == 0 && !l.m.out.valid && !l.m.seen.resValid
    && !l.w.resValid && l.s.st == WBurst && !l.s.out.resValid
  }

  /** The master has gone on to the next word and the slave has not: the slave waits for more beats than the master has
      to offer. */
  predicate Ahead<D>(l: Link<D>) {
    && l.m.busy && l.m.count <= l.s.count && l.m.out.valid && !l.m.seen.resValid
    && l.w.datReady && !l.w.resValid && l.s.st == WBurst && l.s.out.datReady && !l.s.out.resValid
  }

  predicate Hung<D>(l: Link<D>) {
    Ahead(l) || Stuck(l)
  }

  /** A refused beat of a burst, the last one or not, puts the master ahead ... */
  lemma RefusalHangs<D>(g: Config<D>, l: Link<D>, x: LinkIn<D>, j: nat)
    requires LinkInv(g, l.m, l.w, l.h, Some(j), l.s) && !Taking(l.s, x.dev)
    ensures Hung(LinkStep(g.zero, l, x, j)) && !l.s.out.resValid
  {
  }

  /** ... and whatever the further cycles bring, the slave never gets the beat it waits for. */
  lemma HungStays<D>(zero: D, l: Link<D>, x: LinkIn<D>, j: nat)
    requires Hung(l)
    ensures Hung(LinkStep(zero, l, x, j)) && !l.s.out.resValid
  {
  }

  /** Meanwhile the refused word is lost: if the beat is not the last one and the next one is accepted,
      the device has been given the next word in its place. So the words written are still the words taken if and
      only if these two are equal. */
  lemma RefusalSkipsWord<D>(g: Config<D>, l: Link<D>, x0: LinkIn<D>, x1: LinkIn<D>, j: nat)
    requires LinkInv(g, l.m, l.w, l.h, Some(j), l.s) && !Taking(l.s, x0.dev) && x1.dev.ok && |l.h.vals| < l.h.op.len
    ensures
      var l1 := LinkStep(g.zero, l, x0, j);
      var h2 := LinkStep(g.zero, l1, x1, j).h;
      && h2.sent == l.h.vals + [l1.m.out.data] + [x1.dout] && h2.vals == l.h.vals + [x1.dout]
      && (h2.vals <= h2.sent <==> x1.dout == l1.m.out.data)
  {
    var l1 := LinkStep(g.zero, l, x0, j);
    var h2 := LinkStep(g.zero, l1, x1, j).h;
    var n, refused := |l.h.vals|, l1.m.out.data;
    assert h2.sent == l.h.vals + [refused] + [x1.dout];
    assert h2.sent[n] == refused && h2.vals[n] == x1.dout;
  }

  /** A burst that is not refused goes on in every cycle. */
  lemma BurstProgress<D>(g: Config<D>, l: Link<D>, x: LinkIn<D>, j: nat)
    requires LinkInv(g, l.m, l.w, l.h, Some(j), l.s) && Taking(l.s, x.dev) && (l.s.st == WBurst || l.s.st == WEnd)
    ensures
      var l' := LinkStep(g.zero, l, x, j);
      var ends := l'.m.out.resReady && l.s.out.resValid;
      && Rank(l'.m, l'.h, if ends then None else Some(j), l'.s) == Rank(l.m, l.h, Some(j), l.s) - 1
      && l'.m.busy && (if ends then !l'.m.out.waddr.valid else l'.s.st == WBurst || l'.s.st == WEnd)
  {
  }

  // ----- Through the crossbar -----

  ghost function LinkOf<D>(g: Config<D>, f: Fabric<D>, i: nat, j: nat): Link<D>
    requires Sized(g, f) && i < g.masters && j < g.slaves
  {
    Link(f.m[i], f.win[i], f.hist[i], f.s[j])
  }

  ghost function LinkInOf<D>(g: Config<D>, c: Cyc<D>, i: nat, j: nat): LinkIn<D>
    requires SizedCyc(g, c) && i < g.masters && j < g.slaves
  {
    LinkIn(c.start[i], c.dout[i], c.dev[j])
  }

  /** A cycle of the fabric, seen from a master and the slave it owns; no invariant but the crossbar's is needed. */
  lemma TickIsLinkStep<D>(g: Config<D>, f: Fabric<D>, c: Cyc<D>, i: nat, j: nat)
    requires Sized(g, f) && SizedCyc(g, c) && Matched(f.h) && i < g.masters && j < g.slaves && PeerOf(f.h, i) == Some(j)
    ensures
      var f' := Tick(g, f, c);
      && Sized(g, f') && Matched(f'.h)
      && LinkOf(g, f', i, j) == LinkStep(g.zero, LinkOf(g, f, i, j), LinkInOf(g, c, i, j), j)
      && PeerOf(f'.h, i) == (if f'.m[i].out.resReady && f.s[j].out.resValid then None else Some(j))
  {
    var x := Wires(g, f, c);
    OwnershipMatching(f.h, x);
    Connection(f.h, x, i);
  }

  /** Slave j is in a burst write of master i, or about to answer it, and all is well. */
  ghost predicate InBurst<D>(g: Config<D>, f: Fabric<D>, i: nat, j: nat) {
    && Sized(g, f) && Matched(f.h) && i < g.masters && j < g.slaves && PeerOf(f.h, i) == Some(j)
    && (f.s[j].st == WBurst || f.s[j].st == WEnd)
    && LinkInv(g, f.m[i], f.win[i], f.hist[i], Some(j), f.s[j])
  }

  /** The slave has released master i, with the response still on its channel. */
  ghost predicate Let<D>(g: Config<D>, f: Fabric<D>, i: nat, j: nat) {
    && Sized(g, f) && Matched(f.h) && i < g.masters && j < g.slaves && PeerOf(f.h, i) == None
    && f.m[i].busy && !f.m[i].out.waddr.valid && IdleSlave(f.s[j])
    && LinkInv(g, f.m[i], f.win[i], f.hist[i], None, f.s[j])
  }

  /** Master i and slave j hang, and the crossbar keeps them connected. */
  ghost predicate Hangs<D>(g: Config<D>, f: Fabric<D>, i: nat, j: nat) {
    && Sized(g, f) && Matched(f.h) && i < g.masters && j < g.slaves && PeerOf(f.h, i) == Some(j)
    && Hung(LinkOf(g, f, i, j))
  }

  /** Cycles until the operation ends, if no beat is refused. */
  ghost function Left<D>(g: Config<D>, f: Fabric<D>, i: nat, j: nat): nat
    requires InBurst(g, f, i, j)
  {
    Rank(f.m[i], f.hist[i], Some(j), f.s[j])
  }

  ghost predicate Moves<D>(g: Config<D>, f: Fabric<D>, c: Cyc<D>, f': Fabric<D>) {
    Sized(g, f) && SizedCyc(g, c) && f' == Tick(g, f, c)
  }

  lemma HangMoves<D>(g: Config<D>, f: Fabric<D>, c: Cyc<D>, f': Fabric<D>, i: nat, j: nat)
    requires Hangs(g, f, i, j) && Moves(g, f, c, f')
    ensures Hangs(g, f', i, j)
  {
    TickIsLinkStep(g, f, c, i, j);
    HungStays(g.zero, LinkOf(g, f, i, j), LinkInOf(g, c, i, j), j);
  }

  lemma RefusalMoves<D>(g: Config<D>, f: Fabric<D>, c: Cyc<D>, f': Fabric<D>, i: nat, j: nat)
    requires InBurst(g, f, i, j) && Moves(g, f, c, f') && !Taking(f.s[j], c.dev[j])
    ensures Hangs(g, f', i, j)
  {
    TickIsLinkStep(g, f, c, i, j);
    RefusalHangs(g, LinkOf(g, f, i, j), LinkInOf(g, c, i, j), j);
  }

  lemma BurstMoves<D>(g: Config<D>, f: Fabric<D>, c: Cyc<D>, f': Fabric<D>, i: nat, j: nat)
    requires InBurst(g, f, i, j) && Moves(g, f, c, f') && Taking(f.s[j], c.dev[j])
    ensures if Left(g, f, i, j) == 2 then Let(g, f', i, j)
            else InBurst(g, f', i, j) && Left(g, f', i, j) == Left(g, f, i, j) - 1
    ensures Left(g, f, i, j) >= 2
  {
    TickIsLinkStep(g, f, c, i, j);
    LinkBusyStep(g, f.m[i], f.win[i], f.hist[i], Some(j), f.s[j], c.start[i], c.dout[i], c.dev[j], j);
    BurstProgress(g, LinkOf(g, f, i, j), LinkInOf(g, c, i, j), j);
  }

  lemma LetMoves<D>(g: Config<D>, f: Fabric<D>, c: Cyc<D>, f': Fabric<D>, i: nat, j: nat)
    requires Let(g, f, i, j) && Moves(g, f, c, f')
    ensures Sized(g, f') && !f'.m[i].busy && Delivered(g, f'.hist[i]) && Taking(f.s[j], c.dev[j])
  {
    Connection(f.h, Wires(g, f, c), i);
    LinkIdleStep(g, f.m[i], f.win[i], f.hist[i], f.s[j], f.s[j], c.start[i], c.dout[i]);
  }

  // ----- A whole operation -----

  /** The states fs of any run of the cycles cs, whatever the devices do. */
  ghost predicate Path<D>(g: Config<D>, fs: seq<Fabric<D>>, cs: seq<Cyc<D>>) {
    |fs| == |cs| + 1 && forall k :: 0 <= k < |cs| ==> Moves(g, fs[k], cs[k], fs[k + 1])
  }

  /** In cycle k the device of slave j accepts a beat of a burst. */
  ghost predicate TakenAt<D>(g: Config<D>, fs: seq<Fabric<D>>, cs: seq<Cyc<D>>, j: nat, k: nat)
    requires Path(g, fs, cs) && j < g.slaves && k < |cs|
  {
    assert Moves(g, fs[k], cs[k], fs[k + 1]);
    Taking(fs[k].s[j], cs[k].dev[j])
  }

  lemma {:induction false} HangsForever<D>(g: Config<D>, fs: seq<Fabric<D>>, cs: seq<Cyc<D>>, i: nat, j: nat, k: nat, n: nat)
    requires Path(g, fs, cs) && k <= n <= |cs| && Hangs(g, fs[k], i, j)
    ensures Hangs(g, fs[n], i, j)
    decreases n - k
  {
    if k == n {
    } else {
      assert Moves(g, fs[k], cs[k], fs[k + 1]);
      HangMoves(g, fs[k], cs[k], fs[k + 1], i, j);
      HangsForever(g, fs, cs, i, j, k + 1, n);
    }
  }

  /** As long as no beat is refused, the burst goes on. */
  lemma {:induction false} BurstGoesOn<D>(g: Config<D>, fs: seq<Fabric<D>>, cs: seq<Cyc<D>>, i: nat, j: nat, left: nat, n: nat)
    requires Path(g, fs, cs) && InBurst(g, fs[0], i, j) && left == Left(g, fs[0], i, j) && n + 2 <= left && n <= |cs|
    requires forall k :: 0 <= k < n ==> TakenAt(g, fs, cs, j, k)
    ensures InBurst(g, fs[n], i, j) && Left(g, fs[n], i, j) == left - n
  {
    if n == 0 {
    } else {
      BurstGoesOn(g, fs, cs, i, j, left, n - 1);
      assert Moves(g, fs[n - 1], cs[n - 1], fs[n - 1 + 1]) && TakenAt(g, fs, cs, j, n - 1);
      BurstMoves(g, fs[n - 1], cs[n - 1], fs[n], i, j);
    }
  }

  lemma UnrefusedEnds<D>(g: Config<D>, fs: seq<Fabric<D>>, cs: seq<Cyc<D>>, i: nat, j: nat, left: nat)
    requires Path(g, fs, cs) && InBurst(g, fs[0], i, j) && left == Left(g, fs[0], i, j) && 2 <= left <= |cs|
    requires forall k :: 0 <= k < left ==> TakenAt(g, fs, cs, j, k)
    ensures Sized(g, fs[left]) && !fs[left].m[i].busy && Delivered(g, fs[left].hist[i])
  {
    var n := left - 2;
    BurstGoesOn(g, fs, cs, i, j, left, n);
    assert Moves(g, fs[n], cs[n], fs[n + 1]) && TakenAt(g, fs, cs, j, n);
    BurstMoves(g, fs[n], cs[n], fs[n + 1], i, j);
    assert Moves(g, fs[n + 1], cs[n + 1], fs[n + 1 + 1]);
    LetMoves(g, fs[n + 1], cs[n + 1], fs[left], i, j);
  }

  /** The first refused beat. */
  lemma {:induction false} FirstRefusal<D>(g: Config<D>, fs: seq<Fabric<D>>, cs: seq<Cyc<D>>, j: nat, n: nat) returns (k: nat)
    requires Path(g, fs, cs) && j < g.slaves && n < |cs| && !TakenAt(g, fs, cs, j, n)
    ensures k <= n && !TakenAt(g, fs, cs, j, k) && forall q :: 0 <= q < k ==> TakenAt(g, fs, cs, j, q)
  {
    if forall q :: 0 <= q < n ==> TakenAt(g, fs, cs, j, q) {
      k := n;
    } else {
      var q :| 0 <= q < n && !TakenAt(g, fs, cs, j, q);
      k := FirstRefusal(g, fs, cs, j, q);
    }
  }

  /** After a refused beat the operation never ends. */
  lemma RefusedWriteFails<D>(g: Config<D>, fs: seq<Fabric<D>>, cs: seq<Cyc<D>>, i: nat, j: nat, n: nat, t: nat)
    requires Path(g, fs, cs) && InBurst(g, fs[0], i, j) && n < Left(g, fs[0], i, j) && n < |cs|
    requires !TakenAt(g, fs, cs, j, n) && n < t <= |cs|
    ensures Hangs(g, fs[t], i, j) && fs[t].m[i].busy
  {
    var left := Left(g, fs[0], i, j);
    var k := FirstRefusal(g, fs, cs, j, n);
    RefusalIsEarly(g, fs, cs, i, j, left, k);
    BurstGoesOn(g, fs, cs, i, j, left, k);
    assert Moves(g, fs[k], cs[k], fs[k + 1]);
    RefusalMoves(g, fs[k], cs[k], fs[k + 1], i, j);
    HangsForever(g, fs, cs, i, j, k + 1, t);
  }

  /** The last two cycles of an operation have no beat to refuse. */
  lemma RefusalIsEarly<D>(g: Config<D>, fs: seq<Fabric<D>>, cs: seq<Cyc<D>>, i: nat, j: nat, left: nat, k: nat)
    requires Path(g, fs, cs) && InBurst(g, fs[0], i, j) && left == Left(g, fs[0], i, j) && k < left && k < |cs|
    requires !TakenAt(g, fs, cs, j, k) && forall q :: 0 <= q < k ==> TakenAt(g, fs, cs, j, q)
    ensures k + 2 <= left
  {
    LeftEnough(g, fs[0], i, j);
    var n := left - 2;
    if n < k {
      BurstGoesOn(g, fs, cs, i, j, left, n);
      assert Moves(g, fs[n], cs[n], fs[n + 1]) && TakenAt(g, fs, cs, j, n);
      BurstMoves(g, fs[n], cs[n], fs[n + 1], i, j);
    }
  }

  lemma LeftEnough<D>(g: Config<D>, f: Fabric<D>, i: nat, j: nat)
    requires InBurst(g, f, i, j)
    ensures 2 <= Left(g, f, i, j) <= f.hist[i].op.len + 3 && f.m[i].busy
  {
  }

  /** Exactly when a burst write ends: from any state in which slave j is in a burst write of master i, in any run long
      enough to finish it, for any device answers and anything the others do, the master is done at some time if and
      only if no beat is refused in the cycles the operation needs; then it is done in time and everything is
      delivered. */
  lemma EndsIffUnrefused<D>(g: Config<D>, fs: seq<Fabric<D>>, cs: seq<Cyc<D>>, i: nat, j: nat, left: nat)
    requires Path(g, fs, cs) && InBurst(g, fs[0], i, j) && left == Left(g, fs[0], i, j) <= |cs|
    ensures (exists t :: 0 <= t <= |cs| && Done(fs[t], i)) <==> forall k :: 0 <= k < left ==> TakenAt(g, fs, cs, j, k)
    ensures (forall k :: 0 <= k < left ==> TakenAt(g, fs, cs, j, k)) ==>
              Done(fs[left], i) && i < |fs[left].hist| && Delivered(g, fs[left].hist[i])
  {
    LeftEnough(g, fs[0], i, j);
    if forall k :: 0 <= k < left ==> TakenAt(g, fs, cs, j, k) {
      UnrefusedEnds(g, fs, cs, i, j, left);
    } else {
      var n :| 0 <= n < left && !TakenAt(g, fs, cs, j, n);
      NeverDone(g, fs, cs, i, j, n);
    }
  }

  predicate Done<D>(f: Fabric<D>, i: nat) {
    i < |f.m| && !f.m[i].busy
  }

  lemma NeverDone<D>(g: Config<D>, fs: seq<Fabric<D>>, cs: seq<Cyc<D>>, i: nat, j: nat, n: nat)
    requires Path(g, fs, cs) && InBurst(g, fs[0], i, j) && n < Left(g, fs[0], i, j) && n < |cs| && !TakenAt(g, fs, cs, j, n)
    ensures forall t :: 0 <= t <= |cs| ==> !Done(fs[t], i)
  {
    forall t | 0 <= t <= |cs| ensures !Done(fs[t], i) {
      NotDoneAt(g, fs, cs, i, j, n, t);
    }
  }

  lemma NotDoneAt<D>(g: Config<D>, fs: seq<Fabric<D>>, cs: seq<Cyc<D>>, i: nat, j: nat, n: nat, t: nat)
    requires Path(g, fs, cs) && InBurst(g, fs[0], i, j) && n < Left(g, fs[0], i, j) && n < |cs| && !TakenAt(g, fs, cs, j, n)
    requires t <= |cs|
    ensures !Done(fs[t], i)
  {
    var left := Left(g, fs[0], i, j);
    var k := FirstRefusal(g, fs, cs, j, n);
    RefusalIsEarly(g, fs, cs, i, j, left, k);
    if k < t {
      RefusedWriteFails(g, fs, cs, i, j, k, t);
    } else {
      BurstGoesOn(g, fs, cs, i, j, left, t);
      LeftEnough(g, fs[t], i, j);
    }
  }

  // ----- Whole runs -----

  /** Such states are reached: in every configuration, one cycle after any master starts a burst write from reset, its
      slave waits for the first beat. */
  lemma BurstReached<D>(g: Config<D>, i: nat, op: Op, dout: seq<D>, dev: seq<WriteDev>, refusal: WriteDev)
    returns (c: Cyc<D>)
    requires g.Valid() && i < g.masters && op.len > 0 && |dout| == g.masters && |dev| == g.slaves
    requires dev[g.decode(op.addr)].setupOk && !refusal.ok
    ensures SizedCyc(g, c) && Accepting(g, Start(g), c)
    ensures
      var f, j := Tick(g, Start(g), c), g.decode(op.addr);
      Inv(g, f) && PeerOf(f.h, i) == Some(j) && !Taking(f.s[j], refusal)
  {
    c := FirstCycle(g, i, op, dout, dev);
    ReachInv(g, []);
    TickInv(g, Start(g), c);
    FirstConnects(g, i, op, dout, dev);
  }

  /** The first cycle of a write: only master i starts. */
  ghost function FirstCycle<D>(g: Config<D>, i: nat, op: Op, dout: seq<D>, dev: seq<WriteDev>): Cyc<D> {
    Cyc(seq(g.masters, k => if k == i then Some(op) else None), dout, dev)
  }

  lemma FirstConnects<D>(g: Config<D>, i: nat, op: Op, dout: seq<D>, dev: seq<WriteDev>)
    requires g.Valid() && i < g.masters && op.len > 0 && |dout| == g.masters && |dev| == g.slaves
    requires dev[g.decode(op.addr)].setupOk
    ensures
      var f, j := Tick(g, Start(g), FirstCycle(g, i, op, dout, dev)), g.decode(op.addr);
      Sized(g, f) && PeerOf(f.h, i) == Some(j) && f.s[j].st == WBurst
  {
    var f, c, j := Start(g), FirstCycle(g, i, op, dout, dev), g.decode(op.addr);
    var x := Wires(g, f, c);
    assert x.target[i] == Some(j) && !f.h.m[i].active;
    GrantsExactlyOne(f.h, x, j);
    var win := Crossbar.Step(f.h, x).s[j].master;
    assert x.target[win] == Some(j);
    assert win == i;
    Connection(f.h, x, i);
  }

  /** The first cycle of a run in which a beat is refused hits a master with the slave it owns. */
  lemma RefusalMeansBurst<D>(g: Config<D>, f: Fabric<D>, c: Cyc<D>) returns (i: nat, j: nat)
    requires Inv(g, f) && SizedCyc(g, c) && !Accepting(g, f, c)
    ensures InBurst(g, f, i, j) && !Taking(f.s[j], c.dev[j])
  {
    j :| 0 <= j < g.slaves && !Taking(f.s[j], c.dev[j]);
    assert SlaveOk(g, f, j);
    i := f.h.s[j].master;
    assert LinkOk(g, f, i);
  }

  lemma RefusalHangsAt<D>(g: Config<D>, f: Fabric<D>, c: Cyc<D>, f': Fabric<D>) returns (i: nat, j: nat)
    requires Inv(g, f) && Moves(g, f, c, f') && !Accepting(g, f, c)
    ensures Hangs(g, f', i, j)
  {
    i, j := RefusalMeansBurst(g, f, c);
    RefusalMoves(g, f, c, f', i, j);
  }

  /** Master i is busy in all states of any run from f. */
  ghost predicate BusyForever<D(!new)>(g: Config<D>, f: Fabric<D>, i: nat) {
    forall fs: seq<Fabric<D>>, cs, n | Path(g, fs, cs) && fs[0] == f && 0 <= n <= |cs| ::
      i < |fs[n].m| && fs[n].m[i].busy
  }

  lemma HangsMeansBusy<D(!new)>(g: Config<D>, f: Fabric<D>, i: nat, j: nat)
    requires Hangs(g, f, i, j)
    ensures BusyForever(g, f, i)
  {
    forall fs: seq<Fabric<D>>, cs, n | Path(g, fs, cs) && fs[0] == f && 0 <= n <= |cs|
      ensures i < |fs[n].m| && fs[n].m[i].busy
    {
      HangsForever(g, fs, cs, i, j, 0, n);
    }
  }

  /** The assumption of the fabric's theorems is exact: if in a run no beat of a burst is refused but in its last cycle,
      then there is a master that is busy for ever, in every continuation, whatever it brings. */
  lemma RefusedRunHangs<D(!new)>(g: Config<D>, before: seq<Cyc<D>>, c: Cyc<D>) returns (i: nat, j: nat)
    requires AcceptingRun(g, before) && SizedCyc(g, c) && !Accepting(g, Reach(g, before), c)
    ensures Hangs(g, Tick(g, Reach(g, before), c), i, j) && BusyForever(g, Tick(g, Reach(g, before), c), i)
  {
    ReachInv(g, before);
    i, j := RefusalHangsAt(g, Reach(g, before), c, Tick(g, Reach(g, before), c));
    HangsMeansBusy(g, Tick(g, Reach(g, before), c), i, j);
  }
}
