/** From request to delivery: when all masters read one slave whose device is ready, every read is over within a number
    of cycles that depends only on the number of masters and the longest burst. */
module ReadLatency {
  import opened Arith
  import opened Axi
  import opened Master
  import opened Slave
  import opened Crossbar
  import opened ReadFabric

  /** A read of slave j of at most `most` + 1 beats. */
  ghost predicate OpTo<D>(g: Config<D>, j: nat, most: nat, op: Op) {
    g.decode(op.addr) == j && op.len <= most
  }

  /** All masters at work read slave j. */
  ghost predicate Contended<D>(g: Config<D>, f: Fabric<D>, j: nat, most: nat) {
    && Inv(g, f) && j < g.slaves
    && forall i :: 0 <= i < g.masters && f.m[i].busy ==> OpTo(g, j, most, f.hist[i].op)
  }

  /** One cycle: the device of slave j is ready, and all reads that start are of slave j. */
  ghost predicate Contends<D>(g: Config<D>, f: Fabric<D>, c: Cyc<D>, f': Fabric<D>, j: nat, most: nat) {
    && Hop(g, f, c, f', j)
    && forall i :: 0 <= i < g.masters && c.start[i].Some? ==> OpTo(g, j, most, c.start[i].value)
  }

  /** Master i still waits for the slave. */
  ghost predicate Asking<D>(g: Config<D>, f: Fabric<D>, i: nat)
    requires Sized(g, f) && i < g.masters
  {
    f.m[i].busy && PeerOf(f.h, i) == None && !f.m[i].gotAddr
  }

  /** Cycles until the slave is free again. */
  ghost function Taken<D>(g: Config<D>, f: Fabric<D>, j: nat): nat
    requires Sized(g, f) && j < g.slaves
  {
    var o := f.h.s[j].master;
    if f.h.s[j].active && o < g.masters && RankOf(g, f, o) > 0 then RankOf(g, f, o) - 1 else 0
  }

  /** A bound on the cycles until master i is done: the rest of the current read, a whole read for each master that can
      still come first, and its own. */
  ghost function Wait<D>(g: Config<D>, f: Fabric<D>, i: nat, j: nat, most: nat): nat
    requires Sized(g, f) && i < g.masters && j < g.slaves
  {
    if !Asking(g, f, i) then RankOf(g, f, i)
    else Taken(g, f, j) + Turns(Distance(f.h.rr, i, g.masters), most) + most + 4
  }

  /** n reads, each with the cycle that grants it. */
  function Turns(n: nat, most: nat): nat {
    n * (most + 3)
  }

  // ----- The waiting master -----

  /** A waiting master asks in every cycle, and an unconnected cycle leaves it as it is. */
  lemma AsksOn<D>(g: Config<D>, m: MRead, r: ReadSl<D>, h: Hist<D>, s: ReadFsm<D>, start: Option<Op>)
    requires LinkInv(g, m, r, h, None, s) && m.busy && !m.gotAddr
    ensures MReadStep(m, start, r) == m && m.out.raddr == AddrMa(h.op.addr, h.op.size, h.op.len, true)
    ensures h.vals == [] && Observe(h, m, start, r, 0, NoRead).op == h.op && h.started
  {
  }

  /** What the masters ask for: nothing but slave j. */
  lemma AsksForJ<D>(g: Config<D>, f: Fabric<D>, c: Cyc<D>, f': Fabric<D>, j: nat, most: nat, k: nat)
    requires Contended(g, f, j, most) && Contends(g, f, c, f', j, most) && k < g.masters
    ensures Wires(g, f, c).target[k].Some? ==> Wires(g, f, c).target[k] == Some(j)
    ensures Asking(g, f, k) ==> Wires(g, f, c).target[k] == Some(j)
  {
    assert LinkOk(g, f, k);
    if c.start[k].Some? { assert OpTo(g, j, most, c.start[k].value); }
    if f.m[k].busy { assert OpTo(g, j, most, f.hist[k].op); }
  }

  lemma AllForJ<D>(g: Config<D>, f: Fabric<D>, c: Cyc<D>, f': Fabric<D>, j: nat, most: nat, i: nat)
    requires Contended(g, f, j, most) && Contends(g, f, c, f', j, most) && i < g.masters && Asking(g, f, i)
    ensures ContendFor(Wires(g, f, c), j, i)
  {
    AsksForJ(g, f, c, f', j, most, i);
    forall k | 0 <= k < g.masters && Wires(g, f, c).target[k].Some? ensures Wires(g, f, c).target[k] == Some(j) {
      AsksForJ(g, f, c, f', j, most, k);
    }
  }

  /** A cycle in which master i is not granted keeps it waiting. */
  lemma StillAsking<D>(g: Config<D>, f: Fabric<D>, c: Cyc<D>, f': Fabric<D>, j: nat, i: nat)
    requires Inv(g, f) && Hop(g, f, c, f', j) && i < g.masters && Asking(g, f, i) && !Granted(f.h, Wires(g, f, c), i)
    ensures Sized(g, f') && Asking(g, f', i) && f'.hist[i].op == f.hist[i].op
  {
    assert LinkOk(g, f, i);
    AsksOn(g, f.m[i], f.rin[i], f.hist[i], ReadReset(g.zero), c.start[i]);
    Connection(f.h, Wires(g, f, c), i);
  }

  lemma GrantedLink<D>(g: Config<D>, m: MRead, r: ReadSl<D>, h: Hist<D>, s: ReadFsm<D>, start: Option<Op>,
                       dev: ReadDev<D>, j: nat)
    requires LinkInv(g, m, r, h, None, s) && IdleSlave(s) && MReadStep(m, start, r).out.raddr.valid && dev.setupOk
    ensures
      var m' := MReadStep(m, start, r);
      var (s', call) := ReadStep(s, m'.out, dev, g.zero);
      var h' := Observe(h, m, start, r, j, call);
      && m'.busy && (m.busy || start.Some?) && h'.op == (if m.busy then h.op else start.value)
      && Rank(m', h', Some(j), s') == h'.op.len + 3 && !s.out.last
  {
  }

  /** A master that is granted is served at once, its whole burst ahead. */
  lemma GrantedRank<D>(g: Config<D>, f: Fabric<D>, c: Cyc<D>, f': Fabric<D>, j: nat, most: nat, o: nat)
    requires Contended(g, f, j, most) && Contends(g, f, c, f', j, most) && o < g.masters
    requires Conn(f.h, Wires(g, f, c), o) == Some(j) && PeerOf(f.h, o) == None
    ensures Sized(g, f') && PeerOf(f'.h, o) == Some(j) && f'.m[o].busy
    ensures f'.hist[o].op.len <= most && RankOf(g, f', o) == f'.hist[o].op.len + 3
    ensures f.m[o].busy ==> f'.hist[o].op == f.hist[o].op
  {
    assert LinkOk(g, f, o) && SlaveOk(g, f, j);
    TickEntries(g, f, c, o, j);
    GrantedLink(g, f.m[o], f.rin[o], f.hist[o], f.s[j], c.start[o], c.dev[j], j);
    if c.start[o].Some? { assert OpTo(g, j, most, c.start[o].value); }
    if f.m[o].busy { assert OpTo(g, j, most, f.hist[o].op); }
  }

  // ----- One cycle -----

  /** While the slave is taken nobody is granted, so the pointer rests. */
  lemma NoGrantWhileTaken(h: Half, x: In, j: nat)
    requires Fits(h, x) && Matched(h) && j < |h.s| && h.s[j].active
    requires forall k :: 0 <= k < |h.m| && x.target[k].Some? ==> x.target[k] == Some(j)
    ensures !AnyGrant(h, x) && forall k :: 0 <= k < |h.m| ==> !Granted(h, x, k)
  {
    var w := Wants(h, x);
    forall k | 0 <= k < |h.m| ensures w[k] == None {
      assert w[k] == Want(h, x, k);
    }
  }

  lemma WaitWhileTaken<D>(g: Config<D>, f: Fabric<D>, c: Cyc<D>, f': Fabric<D>, j: nat, most: nat, i: nat)
    requires Contended(g, f, j, most) && Contends(g, f, c, f', j, most) && i < g.masters && Asking(g, f, i)
    requires f.h.s[j].active
    ensures Sized(g, f') && Asking(g, f', i) && f'.hist[i].op == f.hist[i].op
    ensures f'.h.rr == f.h.rr && Taken(g, f, j) > 0 && Taken(g, f', j) == Taken(g, f, j) - 1
  {
    var o := f.h.s[j].master;
    AllForJ(g, f, c, f', j, most, i);
    NoGrantWhileTaken(f.h, Wires(g, f, c), j);
    StillAsking(g, f, c, f', j, i);
    TickOwned(g, f, c, o, j);
    OwnedRank(g, f, o, j);
    Ownership(f.h, Wires(g, f, c), j);
    Connection(f.h, Wires(g, f, c), o);
  }

  lemma OwnedRank<D>(g: Config<D>, f: Fabric<D>, o: nat, j: nat)
    requires Inv(g, f) && o < g.masters && PeerOf(f.h, o) == Some(j)
    ensures f.m[o].busy && RankOf(g, f, o) >= 2
  {
    assert LinkOk(g, f, o);
  }

  /** When the slave is free somebody is granted: master i, or another one, which takes the pointer a step nearer. */
  lemma GrantWhenFree<D>(g: Config<D>, f: Fabric<D>, c: Cyc<D>, f': Fabric<D>, j: nat, most: nat, i: nat) returns (o: nat)
    requires Contended(g, f, j, most) && Contends(g, f, c, f', j, most) && i < g.masters && Asking(g, f, i)
    requires !f.h.s[j].active
    ensures o < g.masters && PeerOf(f.h, o) == None && Conn(f.h, Wires(g, f, c), o) == Some(j)
    ensures Sized(g, f') && f'.h.s[j] == SStat(o, true)
    ensures o != i ==>
              && !Granted(f.h, Wires(g, f, c), i) && Distance(f.h.rr, i, g.masters) > 0
              && Distance(f'.h.rr, i, g.masters) == Distance(f.h.rr, i, g.masters) - 1
  {
    var x := Wires(g, f, c);
    AllForJ(g, f, c, f', j, most, i);
    assert SlaveOk(g, f, j);
    GrantsExactlyOne(f.h, x, j);
    o := Crossbar.Step(f.h, x).s[j].master;
    WinnerGranted(f.h, x, o, j);
    if o != i { GrantMovesPointer(f.h, x, i, j); }
  }

  lemma TurnsStep(n: nat, most: nat)
    requires n > 0
    ensures Turns(n, most) == Turns(n - 1, most) + most + 3
  {
  }

  lemma OwnGrant<D>(g: Config<D>, f: Fabric<D>, c: Cyc<D>, f': Fabric<D>, j: nat, most: nat, i: nat)
    requires Contended(g, f, j, most) && Contends(g, f, c, f', j, most) && i < g.masters && Asking(g, f, i)
    requires Conn(f.h, Wires(g, f, c), i) == Some(j)
    ensures Sized(g, f') && f'.m[i].busy && f'.hist[i].op == f.hist[i].op && !Asking(g, f', i) && RankOf(g, f', i) <= most + 3
  {
    GrantedRank(g, f, c, f', j, most, i);
  }

  lemma OtherGrant<D>(g: Config<D>, f: Fabric<D>, c: Cyc<D>, f': Fabric<D>, j: nat, most: nat, o: nat)
    requires Contended(g, f, j, most) && Contends(g, f, c, f', j, most) && o < g.masters && PeerOf(f.h, o) == None
    requires Conn(f.h, Wires(g, f, c), o) == Some(j) && |f'.h.s| == g.slaves && f'.h.s[j] == SStat(o, true)
    ensures Sized(g, f') && Taken(g, f', j) <= most + 2
  {
    GrantedRank(g, f, c, f', j, most, o);
  }

  lemma WaitWhenFree<D>(g: Config<D>, f: Fabric<D>, c: Cyc<D>, f': Fabric<D>, j: nat, most: nat, i: nat)
    requires Contended(g, f, j, most) && Contends(g, f, c, f', j, most) && i < g.masters && Asking(g, f, i)
    requires !f.h.s[j].active
    ensures Sized(g, f') && f'.m[i].busy && f'.hist[i].op == f.hist[i].op
    ensures Wait(g, f', i, j, most) < Wait(g, f, i, j, most)
  {
    var o := GrantWhenFree(g, f, c, f', j, most, i);
    if o == i {
      OwnGrant(g, f, c, f', j, most, i);
    } else {
      OtherGrant(g, f, c, f', j, most, o);
      StillAsking(g, f, c, f', j, i);
      NextTurn(g, f, f', j, most, i);
    }
  }

  lemma NextTurn<D>(g: Config<D>, f: Fabric<D>, f': Fabric<D>, j: nat, most: nat, i: nat)
    requires Sized(g, f) && Sized(g, f') && i < g.masters && j < g.slaves && Asking(g, f, i) && Asking(g, f', i)
    requires 0 < Distance(f.h.rr, i, g.masters) == Distance(f'.h.rr, i, g.masters) + 1 && Taken(g, f', j) <= most + 2
    ensures Wait(g, f', i, j, most) < Wait(g, f, i, j, most)
  {
    TurnsStep(Distance(f.h.rr, i, g.masters), most);
  }

  lemma WaitStep<D>(g: Config<D>, f: Fabric<D>, c: Cyc<D>, f': Fabric<D>, j: nat, most: nat, i: nat)
    requires Contended(g, f, j, most) && Contends(g, f, c, f', j, most) && i < g.masters && f.m[i].busy
    ensures Sized(g, f') && Wait(g, f', i, j, most) < Wait(g, f, i, j, most)
    ensures if f'.m[i].busy then f'.hist[i].op == f.hist[i].op else Finished(g, f', i, f.hist[i].op)
  {
    if !Asking(g, f, i) {
      ServedStep(g, f, c, f', j, most, i);
    } else if f.h.s[j].active {
      WaitWhileTaken(g, f, c, f', j, most, i);
    } else {
      WaitWhenFree(g, f, c, f', j, most, i);
    }
  }

  lemma ServedStep<D>(g: Config<D>, f: Fabric<D>, c: Cyc<D>, f': Fabric<D>, j: nat, most: nat, i: nat)
    requires Contended(g, f, j, most) && Contends(g, f, c, f', j, most) && i < g.masters && f.m[i].busy && !Asking(g, f, i)
    ensures Sized(g, f') && Wait(g, f', i, j, most) < Wait(g, f, i, j, most)
    ensures if f'.m[i].busy then f'.hist[i].op == f.hist[i].op else Finished(g, f', i, f.hist[i].op)
  {
    assert LinkOk(g, f, i) && OpTo(g, j, most, f.hist[i].op);
    BusyRank(g, f, i);
    HopServed(g, f, c, f', i, j);
    if f'.m[i].busy { assert LinkOk(g, f', i); }
  }

  lemma ContendedStep<D>(g: Config<D>, f: Fabric<D>, c: Cyc<D>, f': Fabric<D>, j: nat, most: nat)
    requires Contended(g, f, j, most) && Contends(g, f, c, f', j, most)
    ensures Contended(g, f', j, most)
  {
    TickInv(g, f, c);
    forall i | 0 <= i < g.masters && f'.m[i].busy ensures OpTo(g, j, most, f'.hist[i].op) {
      if c.start[i].Some? { assert OpTo(g, j, most, c.start[i].value); }
      if f.m[i].busy { assert OpTo(g, j, most, f.hist[i].op); }
    }
  }

  // ----- The bound -----

  lemma TurnsMonotone(n: nat, m: nat, most: nat)
    requires n <= m
    ensures Turns(n, most) <= Turns(m, most)
  {
    Mono(most + 3, n, m);
  }

  lemma WaitBound<D>(g: Config<D>, f: Fabric<D>, j: nat, most: nat, i: nat)
    requires Contended(g, f, j, most) && i < g.masters && f.m[i].busy
    ensures Wait(g, f, i, j, most) <= Turns(g.masters + 1, most) + 1
  {
    assert OpTo(g, j, most, f.hist[i].op);
    BusyRank(g, f, i);
    TurnsStep(g.masters + 1, most);
    TurnsStep(g.masters, most);
    TakenBound(g, f, j, most);
    TurnsMonotone(Distance(f.h.rr, i, g.masters), g.masters - 1, most);
  }

  lemma TakenBound<D>(g: Config<D>, f: Fabric<D>, j: nat, most: nat)
    requires Contended(g, f, j, most)
    ensures Taken(g, f, j) <= most + 3
  {
    var o := f.h.s[j].master;
    if f.h.s[j].active {
      OwnedRank(g, f, o, j);
      assert OpTo(g, j, most, f.hist[o].op);
      BusyRank(g, f, o);
    }
  }

  /** From request to delivery: when all masters read slave j, in bursts of at most most+1 beats, and its device is ready,
      then a read of any master, waiting or served, is over with all its beats delivered after at most
      (masters + 1) * (most + 3) + 1 cycles. */
  lemma {:induction false} ReadsDeliveredInTime<D>(g: Config<D>, fs: seq<Fabric<D>>, cs: seq<Cyc<D>>, i: nat, j: nat,
                                                  most: nat)
    returns (t: nat)
    requires |fs| == |cs| + 1 && Contended(g, fs[0], j, most) && i < g.masters && fs[0].m[i].busy
    requires forall k :: 0 <= k < |cs| ==> Contends(g, fs[k], cs[k], fs[k + 1], j, most)
    requires Wait(g, fs[0], i, j, most) <= |cs|
    ensures t <= Wait(g, fs[0], i, j, most) <= (g.masters + 1) * (most + 3) + 1 && t <= |cs|
    ensures Finished(g, fs[t], i, fs[0].hist[i].op)
    decreases |cs|
  {
    WaitBound(g, fs[0], j, most, i);
    assert Contends(g, fs[0], cs[0], fs[0 + 1], j, most);
    WaitStep(g, fs[0], cs[0], fs[1], j, most, i);
    ContendedStep(g, fs[0], cs[0], fs[1], j, most);
    if fs[1].m[i].busy {
      t := ReadsDeliveredInTime(g, fs[1..], cs[1..], i, j, most);
      t := t + 1;
    } else {
      t := 1;
    }
  }
}
