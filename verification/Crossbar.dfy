/** AXI4L::CTRL (io/RVProc_io.h): arbitration and ownership of the crossbar. The read
    and the write direction run the same code on their own status tables, so one
    direction is modelled: MRStat/SRStat/roundRobinRVal, or MWStat/SWStat/roundRobinWVal. */
module Crossbar {
  import opened Axi

  datatype MStat = MStat(slave: nat, active: bool)
  datatype SStat = SStat(master: nat, active: bool)
  datatype Half = Half(m: seq<MStat>, s: seq<SStat>, rr: nat)

  /** What one cycle shows the controller. Of each master: the slave its valid address decodes to, and
      whether it is ready for data (rdat.m.ready) or response (wres.m.ready). Of each slave: whether it
      still drives an answer (rdat.s.valid, wres.s.valid), and whether that answer ends the
      operation (rdat.s.last, wres.s.valid). */
  datatype In = In(target: seq<Option<nat>>, ready: seq<bool>, busy: seq<bool>, last: seq<bool>)

  predicate Shaped(masters: nat, slaves: nat, x: In) {
    && masters == |x.target| == |x.ready| > 0
    && slaves == |x.busy| == |x.last|
    && (forall i :: 0 <= i < masters && x.target[i].Some? ==> x.target[i].value < slaves)
  }

  predicate Fits(h: Half, x: In) {
    Shaped(|h.m|, |h.s|, x)
  }

  /** Active masters and active slaves are in one-to-one correspondence. */
  ghost predicate Matched(h: Half) {
    && h.rr < |h.m|
    && (forall i :: 0 <= i < |h.m| && h.m[i].active ==>
          && h.m[i].slave < |h.s|
          && h.s[h.m[i].slave].active && h.s[h.m[i].slave].master == i)
    && (forall j :: 0 <= j < |h.s| && h.s[j].active ==>
          && h.s[j].master < |h.m|
          && h.m[h.s[j].master].active && h.m[h.s[j].master].slave == j)
  }

  /** checkMRReq / checkMWReq: an idle master asks for the slave its address decodes to, if that is free. */
  function Want(h: Half, x: In, i: nat): Option<nat>
    requires Fits(h, x) && i < |h.m|
  {
    if !h.m[i].active && x.target[i].Some? && !h.s[x.target[i].value].active && !x.busy[x.target[i].value]
    then x.target[i] else None
  }

  function Wants(h: Half, x: In): (w: seq<Option<nat>>)
    requires Fits(h, x)
  {
    seq(|h.m|, i requires 0 <= i < |h.m| => Want(h, x, i))
  }

  /** The first requester of slave j from index k on. */
  function FirstFrom(w: seq<Option<nat>>, j: nat, k: nat): (r: Option<nat>)
    requires k <= |w|
    ensures r.Some? ==> k <= r.value < |w| && w[r.value] == Some(j) &&
                        forall i :: k <= i < r.value ==> w[i] != Some(j)
    ensures r.None? ==> forall i :: k <= i < |w| ==> w[i] != Some(j)
    decreases |w| - k
  {
    if k == |w| then None else if w[k] == Some(j) then Some(k) else FirstFrom(w, j, k + 1)
  }

  /** arbitrate: the first requester at or after the pointer, otherwise the first of all. */
  function Winner(w: seq<Option<nat>>, rr: nat, j: nat): (r: Option<nat>)
    requires rr <= |w|
    ensures r.Some? ==> r.value < |w| && w[r.value] == Some(j)
    ensures r.None? ==> forall i :: 0 <= i < |w| ==> w[i] != Some(j)
  {
    var a := FirstFrom(w, j, rr);
    if a.Some? then a else FirstFrom(w, j, 0)
  }

  /** How far the pointer has to move up, and around, to reach master i. */
  function Distance(rr: nat, i: nat, count: nat): nat
    requires rr <= count && i < count
  {
    if rr <= i then i - rr else count - rr + i
  }

  /** Master k asks for slave j, and no master that does is nearer to the pointer. */
  ghost predicate Nearest(w: seq<Option<nat>>, rr: nat, j: nat, k: nat) {
    && rr <= |w| && k < |w| && w[k] == Some(j)
    && forall i :: 0 <= i < |w| && w[i] == Some(j) ==> Distance(rr, k, |w|) <= Distance(rr, i, |w|)
  }

  /** The winner is the requester nearest to the pointer. */
  lemma NearestWins(w: seq<Option<nat>>, rr: nat, j: nat, k: nat)
    requires rr <= |w|
    ensures Winner(w, rr, j) == Some(k) <==> Nearest(w, rr, j, k)
  {
    var win := Winner(w, rr, j);
    if win.Some? { WinnerNearest(w, rr, j, win.value); }
    if Nearest(w, rr, j, k) { assert Distance(rr, win.value, |w|) == Distance(rr, k, |w|); }
  }

  lemma WinnerNearest(w: seq<Option<nat>>, rr: nat, j: nat, k: nat)
    requires rr <= |w| && Winner(w, rr, j) == Some(k)
    ensures Nearest(w, rr, j, k)
  {
    var a := FirstFrom(w, j, rr);
    forall i | 0 <= i < |w| && w[i] == Some(j) ensures Distance(rr, k, |w|) <= Distance(rr, i, |w|) {
      assert a.None? ==> i < rr && k <= i;
    }
  }

  predicate Granted(h: Half, x: In, i: nat)
    requires Fits(h, x) && h.rr < |h.m| && i < |h.m|
  {
    Want(h, x, i).Some? && Winner(Wants(h, x), h.rr, Want(h, x, i).value) == Some(i)
  }

  predicate AnyGrant(h: Half, x: In)
    requires Fits(h, x) && h.rr < |h.m|
  {
    exists j :: 0 <= j < |h.s| && Winner(Wants(h, x), h.rr, j).Some?
  }

  /** The slave that master i is connected to in this cycle (also in the cycle that releases it). */
  function Conn(h: Half, x: In, i: nat): Option<nat>
    requires Fits(h, x) && h.rr < |h.m| && i < |h.m|
  {
    if Granted(h, x, i) then Want(h, x, i) else if h.m[i].active then Some(h.m[i].slave) else None
  }

  /** The master that slave j is connected to in this cycle. */
  function Owner(h: Half, x: In, j: nat): Option<nat>
    requires Fits(h, x) && h.rr < |h.m| && j < |h.s|
  {
    var win := Winner(Wants(h, x), h.rr, j);
    if win.Some? then win else if h.s[j].active then Some(h.s[j].master) else None
  }

  /** The operation of master i ends in this cycle. */
  predicate Ends(h: Half, x: In, i: nat)
    requires Fits(h, x) && i < |h.m|
  {
    h.m[i].active && h.m[i].slave < |h.s| && x.ready[i] && x.last[h.m[i].slave]
  }

  function NextM(h: Half, x: In, i: nat): MStat
    requires Fits(h, x) && h.rr < |h.m| && i < |h.m|
  {
    if Granted(h, x, i) then MStat(Want(h, x, i).value, true)
    else if Ends(h, x, i) then MStat(0, false) else h.m[i]
  }

  function NextS(h: Half, x: In, j: nat): SStat
    requires Fits(h, x) && h.rr < |h.m| && j < |h.s|
  {
    var win := Winner(Wants(h, x), h.rr, j);
    if win.Some? then SStat(win.value, true)
    else if h.s[j].active && h.s[j].master < |h.m| && Ends(h, x, h.s[j].master) then h.s[j].(active := false)
    else h.s[j]
  }

  function NextRr(rr: nat, count: nat): nat {
    if rr + 1 < count then rr + 1 else 0
  }

  function Step(h: Half, x: In): (h': Half)
    requires Fits(h, x) && h.rr < |h.m|
    ensures |h'.m| == |h.m| && |h'.s| == |h.s|
  {
    Half(seq(|h.m|, i requires 0 <= i < |h.m| => NextM(h, x, i)),
         seq(|h.s|, j requires 0 <= j < |h.s| => NextS(h, x, j)),
         if AnyGrant(h, x) then NextRr(h.rr, |h.m|) else h.rr)
  }

  // ----- Ownership -----

  lemma WinnerGranted(h: Half, x: In, i: nat, j: nat)
    requires Fits(h, x) && h.rr < |h.m| && i < |h.m| && j < |h.s|
    ensures Winner(Wants(h, x), h.rr, j) == Some(i) <==> Granted(h, x, i) && Want(h, x, i) == Some(j)
  {
    assert Wants(h, x)[i] == Want(h, x, i);
  }

  lemma ConnOwner(h: Half, x: In, i: nat, j: nat)
    requires Fits(h, x) && Matched(h) && i < |h.m| && j < |h.s|
    ensures Conn(h, x, i) == Some(j) <==> Owner(h, x, j) == Some(i)
  {
    var win := Winner(Wants(h, x), h.rr, j);
    WinnerGranted(h, x, i, j);
    if win.Some? {
      WinnerGranted(h, x, win.value, j);
      assert !h.s[j].active;
    }
  }

  lemma NextMatchedMaster(h: Half, x: In, i: nat)
    requires Fits(h, x) && Matched(h) && i < |h.m| && NextM(h, x, i).active
    ensures NextM(h, x, i).slave < |h.s|
    ensures NextS(h, x, NextM(h, x, i).slave) == SStat(i, true)
  {
    var j := NextM(h, x, i).slave;
    var win := Winner(Wants(h, x), h.rr, j);
    if j < |h.s| { WinnerGranted(h, x, i, j); }
    if win.Some? { WinnerGranted(h, x, win.value, j); }
  }

  lemma NextMatchedSlave(h: Half, x: In, j: nat)
    requires Fits(h, x) && Matched(h) && j < |h.s| && NextS(h, x, j).active
    ensures NextS(h, x, j).master < |h.m|
    ensures NextM(h, x, NextS(h, x, j).master) == MStat(j, true)
  {
    var i := NextS(h, x, j).master;
    var win := Winner(Wants(h, x), h.rr, j);
    if win.Some? { WinnerGranted(h, x, win.value, j); }
  }

  /** Ownership matching, one cycle: from matched tables, including cycles that mix grants and releases,
      the connections are one-to-one, and the next tables match. */
  lemma OwnershipMatching(h: Half, x: In)
    requires Fits(h, x) && Matched(h)
    ensures Matched(Step(h, x))
    ensures forall i, j :: 0 <= i < |h.m| && 0 <= j < |h.s| ==> (Conn(h, x, i) == Some(j) <==> Owner(h, x, j) == Some(i))
  {
    forall i, j | 0 <= i < |h.m| && 0 <= j < |h.s|
      ensures Conn(h, x, i) == Some(j) <==> Owner(h, x, j) == Some(i)
    {
      ConnOwner(h, x, i, j);
    }
    forall i | 0 <= i < |h.m| && NextM(h, x, i).active
      ensures NextM(h, x, i).slave < |h.s| && NextS(h, x, NextM(h, x, i).slave) == SStat(i, true)
    {
      NextMatchedMaster(h, x, i);
    }
    forall j | 0 <= j < |h.s| && NextS(h, x, j).active
      ensures NextS(h, x, j).master < |h.m| && NextM(h, x, NextS(h, x, j).master) == MStat(j, true)
    {
      NextMatchedSlave(h, x, j);
    }
  }

  /** The slave that master i owns between cycles. */
  function PeerOf(h: Half, i: nat): Option<nat>
    requires i < |h.m|
  {
    if h.m[i].active then Some(h.m[i].slave) else None
  }

  /** A master is connected to the slave it owns, or to a free slave it asked for; after the cycle it owns that
      slave, unless it owned it before and the operation ended. */
  lemma Connection(h: Half, x: In, i: nat)
    requires Fits(h, x) && Matched(h) && i < |h.m|
    ensures
      match Conn(h, x, i)
      case None => PeerOf(h, i) == None && PeerOf(Step(h, x), i) == None
      case Some(j) =>
        && j < |h.s| && Owner(h, x, j) == Some(i)
        && (PeerOf(h, i) == Some(j) || (PeerOf(h, i) == None && !h.s[j].active && x.target[i] == Some(j) && !x.busy[j]))
        && PeerOf(Step(h, x), i) == (if PeerOf(h, i) == Some(j) && x.ready[i] && x.last[j] then None else Some(j))
  {
    var conn := Conn(h, x, i);
    if conn.Some? { ConnOwner(h, x, i, conn.value); }
  }

  /** The same from the slave's side. */
  lemma Ownership(h: Half, x: In, j: nat)
    requires Fits(h, x) && Matched(h) && j < |h.s|
    ensures
      match Owner(h, x, j)
      case None => !h.s[j].active && !Step(h, x).s[j].active
      case Some(i) =>
        && i < |h.m| && Conn(h, x, i) == Some(j)
        && Step(h, x).s[j].active == !(PeerOf(h, i) == Some(j) && x.ready[i] && x.last[j])
  {
    var owner := Owner(h, x, j);
    if owner.Some? {
      var i := owner.value;
      ConnOwner(h, x, i, j);
      WinnerGranted(h, x, i, j);
    }
  }

  function Reset(masters: nat, slaves: nat): Half {
    Half(seq(masters, _ => MStat(0, false)), seq(slaves, _ => SStat(0, false)), 0)
  }

  function Run(h: Half, xs: seq<In>): (h': Half)
    requires h.rr < |h.m| && forall k :: 0 <= k < |xs| ==> Shaped(|h.m|, |h.s|, xs[k])
    ensures |h'.m| == |h.m| && |h'.s| == |h.s| && h'.rr < |h'.m|
  {
    if xs == [] then h
    else
      assert Shaped(|h.m|, |h.s|, xs[|xs| - 1]);
      Step(Run(h, xs[..|xs| - 1]), xs[|xs| - 1])
  }

  lemma {:induction false} RunMatched(h: Half, xs: seq<In>)
    requires Matched(h) && forall k :: 0 <= k < |xs| ==> Shaped(|h.m|, |h.s|, xs[k])
    ensures Matched(Run(h, xs))
  {
    if xs == [] {
    } else {
      var before, x := xs[..|xs| - 1], xs[|xs| - 1];
      RunMatched(h, before);
      OwnershipMatching(Run(h, before), x);
    }
  }

  /** No two masters are connected to one slave, and no two slaves to one master. */
  lemma NoSharing(h: Half, x: In, i: nat, i': nat, j: nat, j': nat)
    requires Fits(h, x) && Matched(h) && i < |h.m| && i' < |h.m| && j < |h.s| && j' < |h.s|
    ensures i != i' && Conn(h, x, i).Some? ==> Conn(h, x, i) != Conn(h, x, i')
    ensures j != j' && Owner(h, x, j).Some? ==> Owner(h, x, j) != Owner(h, x, j')
  {
    Connection(h, x, i);
    Connection(h, x, i');
    Ownership(h, x, j);
    Ownership(h, x, j');
  }

  /** Ownership matching over every run from reset: the tables are mutually inverse in every reachable
      state, and in the next cycle no slave is connected to two masters nor a master to two slaves. */
  lemma OwnershipAlways(masters: nat, slaves: nat, xs: seq<In>, x: In, i: nat, i': nat, j: nat, j': nat)
    requires i < masters && i' < masters && j < slaves && j' < slaves
    requires Shaped(masters, slaves, x)
    requires forall k :: 0 <= k < |xs| ==> Shaped(masters, slaves, xs[k])
    ensures
      var h := Run(Reset(masters, slaves), xs);
      && Matched(h)
      && (i != i' && Conn(h, x, i).Some? ==> Conn(h, x, i) != Conn(h, x, i'))
      && (j != j' && Owner(h, x, j).Some? ==> Owner(h, x, j) != Owner(h, x, j'))
      && (Conn(h, x, i) == Some(j) <==> Owner(h, x, j) == Some(i))
  {
    RunMatched(Reset(masters, slaves), xs);
    var h := Run(Reset(masters, slaves), xs);
    NoSharing(h, x, i, i', j, j');
    ConnOwner(h, x, i, j);
  }

  // ----- Arbitration -----

  /** A free slave that is requested grants exactly one of its requesters; any other slave grants none. */
  lemma GrantsExactlyOne(h: Half, x: In, j: nat)
    requires Fits(h, x) && Matched(h) && j < |h.s|
    ensures
      var free := !h.s[j].active && !x.busy[j];
      var requested := exists i :: 0 <= i < |h.m| && !h.m[i].active && x.target[i] == Some(j);
      && (free && requested ==>
            var win := Step(h, x).s[j];
            && win.active && win.master < |h.m|
            && !h.m[win.master].active && x.target[win.master] == Some(j)
            && forall i :: 0 <= i < |h.m| && x.target[i] == Some(j) ==> (Granted(h, x, i) <==> i == win.master))
      && (!(free && requested) ==>
            forall i :: 0 <= i < |h.m| && x.target[i] == Some(j) ==> !Granted(h, x, i))
  {
    var w := Wants(h, x);
    var win := Winner(w, h.rr, j);
    assert Step(h, x).s[j] == NextS(h, x, j);
    forall i | 0 <= i < |h.m|
      ensures w[i] == Want(h, x, i)
      ensures win == Some(i) <==> Granted(h, x, i) && Want(h, x, i) == Some(j)
    {
      WinnerGranted(h, x, i, j);
    }
    if !h.s[j].active && !x.busy[j] && exists i :: 0 <= i < |h.m| && !h.m[i].active && x.target[i] == Some(j) {
      var i :| 0 <= i < |h.m| && !h.m[i].active && x.target[i] == Some(j);
      assert w[i] == Want(h, x, i) == Some(j);
    }
  }

  /** Which requester wins: if the step grants the free slave j to master k, then every idle master that targets j is at
      least as far from the pointer as k. */
  lemma NearestIsGranted(h: Half, x: In, j: nat, k: nat, i: nat)
    requires Fits(h, x) && Matched(h) && j < |h.s| && !h.s[j].active && Step(h, x).s[j] == SStat(k, true)
    requires i < |h.m| && !h.m[i].active && x.target[i] == Some(j)
    ensures k < |h.m| && !h.m[k].active && x.target[k] == Some(j)
    ensures Distance(h.rr, k, |h.m|) <= Distance(h.rr, i, |h.m|)
  {
    var w := Wants(h, x);
    assert w[i] == Want(h, x, i);
    NearestWins(w, h.rr, j, k);
  }

  /** All requests of this cycle go to slave j, and master i is one of the requesters. */
  predicate ContendFor(x: In, j: nat, i: nat)
    requires i < |x.target|
  {
    x.target[i] == Some(j) && forall k :: 0 <= k < |x.target| && x.target[k].Some? ==> x.target[k] == Some(j)
  }

  /** Cycles of a run in which some master is granted. */
  function Grants(h: Half, xs: seq<In>): nat
    requires h.rr < |h.m| && forall k :: 0 <= k < |xs| ==> Shaped(|h.m|, |h.s|, xs[k])
    decreases |xs|
  {
    if xs == [] then 0
    else (if AnyGrant(h, xs[0]) then 1 else 0) + Grants(Step(h, xs[0]), xs[1..])
  }

  predicate NeverGranted(h: Half, xs: seq<In>, i: nat)
    requires h.rr < |h.m| && i < |h.m| && forall k :: 0 <= k < |xs| ==> Shaped(|h.m|, |h.s|, xs[k])
    decreases |xs|
  {
    xs != [] ==> !Granted(h, xs[0], i) && NeverGranted(Step(h, xs[0]), xs[1..], i)
  }

  /** A grant to somebody else brings the pointer one step closer to a waiting master. */
  lemma GrantMovesPointer(h: Half, x: In, i: nat, j: nat)
    requires Fits(h, x) && Matched(h) && i < |h.m| && j < |h.s| && !h.m[i].active
    requires ContendFor(x, j, i) && !Granted(h, x, i) && AnyGrant(h, x)
    ensures Distance(h.rr, i, |h.m|) > 0
    ensures Distance(Step(h, x).rr, i, |h.m|) == Distance(h.rr, i, |h.m|) - 1
  {
    var w := Wants(h, x);
    var j' :| 0 <= j' < |h.s| && Winner(w, h.rr, j').Some?;
    var win := Winner(w, h.rr, j').value;
    WinnerGranted(h, x, win, j');
    assert j' == j;
    WinnerGranted(h, x, i, j);
    assert Want(h, x, i) == Some(j) == w[i];
    assert h.rr != i;
  }

  /** Round-robin fairness: while all requests go to one slave, a master that keeps requesting sees at
      most MC-1 grants to others (more precisely, the pointer's distance to it) before its own. */
  lemma {:induction false} BoundedWaiting(h: Half, xs: seq<In>, i: nat, j: nat)
    requires Matched(h) && i < |h.m| && j < |h.s| && !h.m[i].active
    requires forall k :: 0 <= k < |xs| ==> Shaped(|h.m|, |h.s|, xs[k]) && ContendFor(xs[k], j, i)
    requires NeverGranted(h, xs, i)
    decreases |xs|
    ensures Grants(h, xs) <= Distance(h.rr, i, |h.m|) <= |h.m| - 1
  {
    if xs == [] {
    } else {
      OwnershipMatching(h, xs[0]);
      if AnyGrant(h, xs[0]) {
        GrantMovesPointer(h, xs[0], i, j);
      }
      BoundedWaiting(Step(h, xs[0]), xs[1..], i, j);
    }
  }

  // ----- The controller as an object -----

  /** What a channel end sees: the other end it is connected to, or the reset value. */
  function Sees<T>(peer: Option<nat>, out: seq<T>, reset: T): T {
    if peer.Some? && peer.value < |out| then out[peer.value] else reset
  }

  predicate Done(owner: Option<nat>, i: nat) {
    owner.Some? && owner.value < i
  }

  /** One cycle, spelled out per table entry: `conn` and `owner` are mutually inverse, and the new entries
      differ from the old ones only where a master is granted or ends. */
  datatype Cycle = Cycle(x: In, m: seq<MStat>, s: seq<SStat>, want: seq<Option<nat>>, granted: seq<bool>,
                         conn: seq<Option<nat>>, owner: seq<Option<nat>>, m': seq<MStat>, s': seq<SStat>) {
    ghost predicate Sized() {
      && |m| == |x.ready| == |want| == |granted| == |conn| == |m'|
      && |s| == |x.last| == |owner| == |s'|
    }

    ghost predicate MasterPlan(i: nat)
      requires Sized() && i < |m|
    {
      && (granted[i] ==> want[i].Some?)
      && (m[i].active ==> m[i].slave < |s|)
      && conn[i] == (if granted[i] then want[i] else if m[i].active then Some(m[i].slave) else None)
      && (conn[i].Some? ==> conn[i].value < |s| && owner[conn[i].value] == Some(i))
      && m'[i] == if granted[i] then MStat(want[i].value, true)
                  else if m[i].active && x.ready[i] && x.last[m[i].slave] then MStat(0, false) else m[i]
    }

    ghost predicate SlavePlan(j: nat)
      requires Sized() && j < |s|
    {
      if owner[j].None? then s'[j] == s[j]
      else
        var i := owner[j].value;
        && i < |m| && conn[i] == Some(j)
        && s'[j] == if granted[i] then SStat(i, true)
                    else if x.ready[i] && x.last[j] then s[j].(active := false) else s[j]
    }

    ghost predicate Plan() {
      && Sized()
      && (forall i :: 0 <= i < |m| ==> MasterPlan(i))
      && (forall j :: 0 <= j < |s| ==> SlavePlan(j))
    }
  }

  /** Some slave below `bound` has a winner. */
  predicate AnyWinner(w: seq<Option<nat>>, rr: nat, bound: nat)
    requires rr <= |w|
  {
    exists j :: 0 <= j < bound && Winner(w, rr, j).Some?
  }

  /** Master i wins the slave it asks for, and that slave is below `bound`. */
  predicate Wins(w: seq<Option<nat>>, rr: nat, i: nat, bound: nat)
    requires rr <= |w| && i < |w|
  {
    w[i].Some? && w[i].value < bound && Winner(w, rr, w[i].value) == Some(i)
  }

  /** The table writes of updateMRStat / updateMWStat for master i. */
  function UpdateOne(x: In, m: seq<MStat>, s: seq<SStat>, want: seq<Option<nat>>, granted: seq<bool>, i: nat)
    : (r: (seq<MStat>, seq<SStat>))
    requires |x.ready| == |m| == |want| == |granted| && i < |m| && |x.last| == |s|
    ensures |r.0| == |m| && |r.1| == |s|
  {
    if granted[i] && want[i].Some? && want[i].value < |s| then
      (m[i := MStat(want[i].value, true)], s[want[i].value := SStat(i, true)])
    else
      var j := m[i].slave;
      if m[i].active && x.ready[i] && j < |s| && x.last[j] then
        (m[i := MStat(0, false)], s[j := s[j].(active := false)])
      else (m, s)
  }

  function UpdateFold(x: In, m: seq<MStat>, s: seq<SStat>, want: seq<Option<nat>>, granted: seq<bool>, i: nat)
    : (r: (seq<MStat>, seq<SStat>))
    requires |x.ready| == |m| == |want| == |granted| && i <= |m| && |x.last| == |s|
    ensures |r.0| == |m| && |r.1| == |s|
  {
    if i == 0 then (m, s)
    else
      var (m0, s0) := UpdateFold(x, m, s, want, granted, i - 1);
      UpdateOne(x, m0, s0, want, granted, i - 1)
  }

  /** After i updates, exactly the first i masters and the slaves they are connected to have been written. */
  lemma {:induction false} UpdateFoldAt(c: Cycle, i: nat, k: nat, j: nat)
    requires c.Plan() && i <= |c.m|
    ensures k < |c.m| ==> UpdateFold(c.x, c.m, c.s, c.want, c.granted, i).0[k] == if k < i then c.m'[k] else c.m[k]
    ensures j < |c.s| ==> UpdateFold(c.x, c.m, c.s, c.want, c.granted, i).1[j] == if Done(c.owner[j], i) then c.s'[j] else c.s[j]
    decreases i
  {
    if i == 0 {
    } else {
      UpdateFoldAt(c, i - 1, k, j);
      UpdateFoldAt(c, i - 1, i - 1, j);
      assert c.MasterPlan(i - 1);
      assert j < |c.s| ==> c.SlavePlan(j);
    }
  }

  ghost function PlanOf(h: Half, x: In): (c: Cycle)
    requires Fits(h, x) && h.rr < |h.m|
    ensures c.Sized()
  {
    Cycle(x, h.m, h.s, Wants(h, x),
          seq(|h.m|, i requires 0 <= i < |h.m| => Granted(h, x, i)),
          seq(|h.m|, i requires 0 <= i < |h.m| => Conn(h, x, i)),
          seq(|h.s|, j requires 0 <= j < |h.s| => Owner(h, x, j)),
          Step(h, x).m, Step(h, x).s)
  }

  lemma StepFollowsPlan(h: Half, x: In)
    requires Fits(h, x) && Matched(h)
    ensures PlanOf(h, x).Plan()
  {
    var c := PlanOf(h, x);
    forall i | 0 <= i < |h.m| ensures c.MasterPlan(i) {
      if c.conn[i].Some? { ConnOwner(h, x, i, c.conn[i].value); }
    }
    forall j | 0 <= j < |h.s| ensures c.SlavePlan(j) {
      if c.owner[j].Some? {
        ConnOwner(h, x, c.owner[j].value, j);
        WinnerGranted(h, x, c.owner[j].value, j);
      }
    }
  }

  /** One direction of CTRL. M and S stand for the bundles that masters and slaves drive in that direction;
      `want` (requested, reqSlaveID) and `granted` are wires, recomputed in every cycle. */
  class Ctrl<M, S> {
    var m: seq<MStat>
    var s: seq<SStat>
    var rr: nat
    var want: seq<Option<nat>>
    var granted: seq<bool>

    ghost function Tables(): Half
      reads this
    {
      Half(m, s, rr)
    }

    constructor (masters: nat, slaves: nat)
      ensures Tables() == Reset(masters, slaves)
    {
      m := seq(masters, _ => MStat(0, false));
      s := seq(slaves, _ => SStat(0, false));
      rr := 0;
      want, granted := [], [];
    }

    method CheckRequests(x: In)
      requires Fits(Tables(), x)
      modifies this`want, this`granted
      ensures want == Wants(Tables(), x)
      ensures granted == seq(|m|, _ => false)
    {
      want, granted := [], [];
      for i := 0 to |m|
        invariant |want| == |granted| == i
        invariant forall k :: 0 <= k < i ==> want[k] == Want(Tables(), x, k) && !granted[k]
      {
        var requested := false;
        if !m[i].active && x.target[i].Some? {
          var sidx := x.target[i].value;
          if !s[sidx].active && !x.busy[sidx] { requested := true; }
        }
        want := want + [if requested then x.target[i] else None];
        granted := granted + [false];
      }
    }

    /** Two rounds over the masters: from the round-robin pointer on, then all. */
    method Arbitrate(sidx: nat) returns (flag: bool)
      requires |want| == |granted| && rr <= |want|
      modifies this`granted
      ensures flag <==> Winner(want, rr, sidx).Some?
      ensures granted == if flag then old(granted)[Winner(want, rr, sidx).value := true] else old(granted)
      ensures flag <==> exists i :: 0 <= i < |want| && want[i] == Some(sidx)
      ensures |granted| == |want| && forall k :: 0 <= k < |want| ==>
                granted[k] == (old(granted)[k] || Nearest(want, rr, sidx, k))
    {
      forall k | 0 <= k < |want| ensures Winner(want, rr, sidx) == Some(k) <==> Nearest(want, rr, sidx, k) {
        NearestWins(want, rr, sidx, k);
      }
      flag := false;
      for i := 0 to |want|
        invariant flag <==> FirstFrom(want, sidx, rr).Some? && FirstFrom(want, sidx, rr).value < i
        invariant granted == if flag then old(granted)[FirstFrom(want, sidx, rr).value := true] else old(granted)
      {
        if i >= rr && !flag && want[i] == Some(sidx) {
          granted, flag := granted[i := true], true;
        }
      }
      ghost var second := !flag;
      for i := 0 to |want|
        invariant if second then flag <==> FirstFrom(want, sidx, 0).Some? && FirstFrom(want, sidx, 0).value < i else flag
        invariant granted == if flag then old(granted)[Winner(want, rr, sidx).value := true] else old(granted)
      {
        if !flag && want[i] == Some(sidx) {
          granted, flag := granted[i := true], true;
        }
      }
    }

    method ArbitrateAll()
      requires |want| == |granted| == |m| > rr
      requires forall i :: 0 <= i < |m| ==> !granted[i]
      modifies this`granted, this`rr
      ensures |granted| == |m|
      ensures rr == if AnyWinner(want, old(rr), |s|) then NextRr(old(rr), |m|) else old(rr)
      ensures forall i :: 0 <= i < |m| ==> granted[i] == Wins(want, old(rr), i, |s|)
    {
      var any := false;
      for j := 0 to |s|
        invariant rr == old(rr) && |granted| == |m|
        invariant any == AnyWinner(want, rr, j)
        invariant forall i :: 0 <= i < |m| ==> granted[i] == Wins(want, rr, i, j)
      {
        var flag := Arbitrate(j);
        any := any || flag;
      }
      if any { rr := if rr < |m| - 1 then rr + 1 else 0; }
    }

    /** One connectChannel of this direction: afterwards the tables have made one step, every connected master
        sees its slave and every connected slave its master, and all other channel ends are reset. */
    method ConnectChannel(x: In, mOut: seq<M>, sOut: seq<S>, mReset: M, sReset: S)
      returns (mIn: seq<S>, sIn: seq<M>)
      requires Fits(Tables(), x) && Matched(Tables()) && |mOut| == |m| && |sOut| == |s|
      modifies this
      ensures Tables() == Step(old(Tables()), x) && Matched(Tables())
      ensures |mIn| == |m| && |sIn| == |s|
      ensures forall i :: 0 <= i < |m| ==> mIn[i] == Sees(Conn(old(Tables()), x, i), sOut, sReset)
      ensures forall j :: 0 <= j < |s| ==> sIn[j] == Sees(Owner(old(Tables()), x, j), mOut, mReset)
    {
      ghost var h := Tables();
      ghost var c := PlanOf(h, x);
      OwnershipMatching(h, x);
      StepFollowsPlan(h, x);
      CheckRequests(x);
      ArbitrateAll();
      assert granted == c.granted;
      var link := UpdateAll(x, c);
      forall i | 0 <= i < |c.m| ensures link[i].Some? ==> link[i].value < |c.s| && c.owner[link[i].value] == Some(i) {
        assert c.MasterPlan(i);
      }
      forall j | 0 <= j < |c.s| && c.owner[j].Some? ensures c.owner[j].value < |c.m| && link[c.owner[j].value] == Some(j) {
        assert c.SlavePlan(j);
      }
      mIn, sIn := Connect(link, mOut, sOut, mReset, sReset, c.owner);
    }

    /** The loop over updateMRStat / updateMWStat; `link` collects the slave indices they return. */
    method UpdateAll(x: In, ghost c: Cycle) returns (link: seq<Option<nat>>)
      requires c.x == x && c.m == m && c.s == s && c.want == want && c.granted == granted
      requires c.Plan()
      modifies this`m, this`s
      ensures m == c.m' && s == c.s' && link == c.conn
    {
      link := [];
      for i := 0 to |m|
        invariant i <= |m| == |c.m| && |s| == |c.s| && link == c.conn[..i]
        invariant m == UpdateFold(x, c.m, c.s, want, granted, i).0
        invariant s == UpdateFold(x, c.m, c.s, want, granted, i).1
      {
        UpdateFoldAt(c, i, i, 0);
        assert c.MasterPlan(i);
        var connected, sidx := UpdateStat(x, i);
        link := link + [if connected then Some(sidx) else None];
      }
      forall k | 0 <= k < |m| ensures m[k] == c.m'[k] {
        UpdateFoldAt(c, |c.m|, k, 0);
      }
      forall j | 0 <= j < |s| ensures s[j] == c.s'[j] {
        UpdateFoldAt(c, |c.m|, 0, j);
        assert c.SlavePlan(j);
      }
    }

    /** The connectRCh / connectWCh calls; they only copy wires that the status updates do not write. */
    method Connect(link: seq<Option<nat>>, mOut: seq<M>, sOut: seq<S>, mReset: M, sReset: S,
                   ghost owner: seq<Option<nat>>)
      returns (mIn: seq<S>, sIn: seq<M>)
      requires |link| == |mOut| && |owner| == |sOut|
      requires forall i :: 0 <= i < |link| && link[i].Some? ==> link[i].value < |owner| && owner[link[i].value] == Some(i)
      requires forall j :: 0 <= j < |owner| && owner[j].Some? ==> owner[j].value < |link| && link[owner[j].value] == Some(j)
      ensures |mIn| == |mOut| && |sIn| == |sOut|
      ensures forall i :: 0 <= i < |mIn| ==> mIn[i] == Sees(link[i], sOut, sReset)
      ensures forall j :: 0 <= j < |sIn| ==> sIn[j] == Sees(owner[j], mOut, mReset)
    {
      sIn := seq(|sOut|, _ => mReset);
      mIn := seq(|mOut|, _ => sReset);
      for i := 0 to |link|
        invariant |mIn| == |mOut| && |sIn| == |sOut|
        invariant forall k :: 0 <= k < |mIn| ==> mIn[k] == if k < i then Sees(link[k], sOut, sReset) else sReset
        invariant forall j :: 0 <= j < |sIn| ==> sIn[j] == if Done(owner[j], i) then mOut[owner[j].value] else mReset
      {
        if link[i].Some? {
          sIn := sIn[link[i].value := mOut[i]];
          mIn := mIn[i := sOut[link[i].value]];
        }
      }
    }

    /** updateMRStat / updateMWStat. */
    method UpdateStat(x: In, i: nat) returns (connected: bool, sidx: nat)
      requires |x.ready| == |m| == |want| == |granted| && i < |m| && |x.last| == |s|
      requires granted[i] ==> want[i].Some? && want[i].value < |s|
      requires m[i].active ==> m[i].slave < |s|
      modifies this`m, this`s
      ensures connected == (granted[i] || old(m[i].active))
      ensures sidx == if granted[i] then want[i].value else old(m[i].slave)
      ensures (m, s) == UpdateOne(x, old(m), old(s), want, granted, i)
    {
      sidx := m[i].slave;
      if granted[i] {
        sidx := want[i].value;
        m := m[i := MStat(sidx, true)];
        s := s[sidx := SStat(i, true)];
        connected := true;
      } else if m[i].active && x.ready[i] && x.last[sidx] {
        m := m[i := MStat(0, false)];
        s := s[sidx := s[sidx].(active := false)];
        connected := true;
      } else {
        connected := m[i].active;
      }
    }
  }
}
