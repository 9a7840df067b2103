/** Exactly-once UART access: a bus master with one outstanding single-beat read and one
    outstanding single-beat write, the converter and the UART stepped together. The master
    obeys the AXI handshake (section A3.2 of ARM IHI 0022): a request stays up until it is
    accepted. When it asks, when it is ready for the answer, and what the device returns are
    arbitrary. The UART answers every call at once (device/uart16550.cpp). */
module UartPath {
  import opened Axi
  import opened Slave
  import opened Uart

  // ----- Reads -----

  datatype Req = Req(addr: nat, size: nat)
  datatype Call = Call(addr: nat, size: nat, data: Byte)
  datatype Answer = Answer(word: Word, resp: Resp, last: bool)

  /** Idle, asking (raddr.valid up), or waiting for the data. */
  datatype Phase = Idle | Asking | Waiting

  /** `ready` and `seen` are what the master drove and saw in the last cycle. The logs record the requests issued,
      the device calls and the answers taken. */
  datatype RPath = RPath(m: Phase, cur: Req, ready: bool, seen: ReadSl<Word>, c: CvtRead, u: ReadFsm<Byte>,
                         issued: seq<Req>, calls: seq<Call>, resps: seq<Answer>)

  datatype RIn = RIn(start: Option<Req>, ready: bool, data: Byte)

  function RStart(): RPath {
    RPath(Idle, Req(0, 0), false, ReadUp(CvtRead(ADDR_EMPTY, RdatEmpty())), CvtRead(ADDR_EMPTY, RdatEmpty()),
          ReadReset(0), [], [], [])
  }

  /** The master's clock edge: handshakes completed by the last cycle, then possibly a new request. */
  function REdge(p: RPath, x: RIn): RPath {
    var taken := p.m == Waiting && p.seen.valid && p.ready;
    var m := if p.m == Asking && p.seen.addrReady then Waiting else if taken then Idle else p.m;
    var q := p.(m := m, ready := x.ready,
                resps := if taken then p.resps + [Answer(p.seen.data, p.seen.resp, p.seen.last)] else p.resps);
    if m == Idle && x.start.Some? then q.(m := Asking, cur := x.start.value, issued := p.issued + [x.start.value]) else q
  }

  function RDrive(p: RPath): ReadMa {
    ReadMa(AddrMa(p.cur.addr, p.cur.size, 0, p.m == Asking), p.ready)
  }

  function RCycle(p0: RPath, x: RIn): RPath {
    var p := REdge(p0, x);
    var (u', call) := ReadStep(p.u, ReadDown(p.c), ReadDev(true, true, x.data), 0);
    p.(seen := ReadUp(p.c), c := CvtReadStep(p.c, RDrive(p), p.u.out), u := u',
       calls := if call.DevRead? then p.calls + [Call(call.addr, call.size, call.data)] else p.calls)
  }

  function RRun(p: RPath, xs: seq<RIn>): RPath {
    if xs == [] then p else RCycle(RRun(p, xs[..|xs| - 1]), xs[|xs| - 1])
  }

  predicate RIdle(u: ReadFsm<Byte>) {
    u.st == RInit && !u.out.addrReady && !u.out.valid
  }

  predicate Empty(a: AddrReg) {
    !a.full && !a.addr.valid
  }

  predicate Free(d: RdatReg) {
    d == RdatEmpty()
  }

  /** Without an answer the master sees the channel's reset values. */
  ghost predicate ResetUnlessValid(r: ReadSl<Word>) {
    !r.valid ==> r.resp == Okay && !r.last && |r.data| == BUS && forall l :: 0 <= l < BUS ==> r.data[l] == 0
  }

  /** The answer a call is due: its byte in the addressed lane, an OKAY response, and the mark of a last beat. */
  function Due(data: Byte, addr: nat): Answer {
    Answer(ToBus(data, addr), Okay, true)
  }

  /** Call k answers request k, and answer k is the one due to call k. */
  ghost predicate RLogs(p: RPath) {
    && |p.resps| <= |p.calls| <= |p.issued| <= |p.resps| + 1
    && (forall k :: 0 <= k < |p.calls| ==> Req(p.calls[k].addr, p.calls[k].size) == p.issued[k])
    && (forall k :: 0 <= k < |p.resps| ==> p.resps[k] == Due(p.calls[k].data, p.calls[k].addr))
  }

  /** Cycles still needed if the master is ready; the phases of one access in order. */
  ghost function RRank(p: RPath): nat {
    if p.m == Idle then 0
    else if p.m == Asking then 5
    else if p.u.st == RAddr then 4
    else if p.u.st == REnd then 3
    else if p.c.d.full then 2 else 1
  }

  /** The access in flight, phase by phase. */
  ghost predicate RPhase(p: RPath) {
    var n := |p.resps|;
    if RRank(p) == 0 then |p.issued| == n && Empty(p.c.a) && Free(p.c.d) && RIdle(p.u) && !p.seen.valid
    else if RRank(p) == 5 then RAsked(p) && p.seen.addrReady && RIdle(p.u)
    else if RRank(p) == 4 then
      && RAsked(p) && p.u.out.addrReady && !p.u.out.valid
      && p.u.addr == p.cur.addr && p.u.size == p.cur.size && p.u.count == 0 && !p.u.burstEnd
    else
      && |p.calls| == |p.issued| == n + 1 && p.issued[n] == p.cur && Empty(p.c.a)
      && if RRank(p) == 3 then
           && p.c.a.addr.addr == p.cur.addr && Free(p.c.d) && !p.seen.valid
           && p.u.out == ReadSl(false, p.calls[n].data, Okay, true, true)
         else
           && RIdle(p.u)
           && var due := Due(p.calls[n].data, p.cur.addr);
              if p.c.d.full
              then p.c.d.valid && Answer(p.c.d.data, p.c.d.resp, p.c.d.last) == due && (p.seen.valid ==> !p.ready)
              else Free(p.c.d) && p.seen.valid && p.ready && Answer(p.seen.data, p.seen.resp, p.seen.last) == due
  }

  /** The request is in the converter's address register, and not served yet. */
  ghost predicate RAsked(p: RPath) {
    && |p.calls| == |p.resps| == |p.issued| - 1 && p.issued[|p.calls|] == p.cur
    && p.c.a == AddrReg(true, AddrMa(p.cur.addr, p.cur.size, 0, true)) && Free(p.c.d) && !p.seen.valid
  }

  ghost predicate RInv(p: RPath) {
    RLogs(p) && RPhase(p) && ResetUnlessValid(p.seen)
  }

  /** One cycle takes the access one phase further; only an answer the master is not ready for stays. */
  lemma RPhaseStep(p: RPath, x: RIn)
    requires RInv(p)
    ensures RPhase(RCycle(p, x)) && ResetUnlessValid(RCycle(p, x).seen)
    ensures RRank(p) > 1 ==> RCycle(p, x).issued == p.issued
    ensures RRank(p) > 2 || (RRank(p) == 2 && x.ready) ==> RRank(RCycle(p, x)) == RRank(p) - 1
    ensures RRank(p) == 2 && !x.ready ==> RRank(RCycle(p, x)) == 2
  {
    if RRank(p) >= 4 {
      RAskedStep(p, x);
    } else if RRank(p) >= 2 {
      RServedStep(p, x);
    }
  }

  lemma RAskedStep(p: RPath, x: RIn)
    requires RInv(p) && RRank(p) >= 4
    ensures
      var p' := RCycle(p, x);
      RPhase(p') && p'.issued == p.issued && RRank(p') == RRank(p) - 1
  {
  }

  lemma RServedStep(p: RPath, x: RIn)
    requires RInv(p) && 2 <= RRank(p) <= 3
    ensures
      var p' := RCycle(p, x);
      && RPhase(p') && p'.issued == p.issued
      && RRank(p') == if RRank(p) == 3 then 2 else if x.ready then 1 else 2
  {
  }

  /** What one cycle adds to the logs: the device is called in phase 4 only, the answer taken in phase 1 only. */
  lemma RLogsGrow(p: RPath, x: RIn)
    requires RInv(p)
    ensures
      var p' := RCycle(p, x);
      && p'.calls == (if RRank(p) == 4 then p.calls + [Call(p.cur.addr, p.cur.size, x.data)] else p.calls)
      && p'.resps == (if RRank(p) == 1 then p.resps + [Due(p.calls[|p.resps|].data, p.cur.addr)] else p.resps)
      && p'.issued == (if RRank(p) <= 1 && x.start.Some? then p.issued + [x.start.value] else p.issued)
  {
  }

  lemma RLogsKept(p: RPath, q: RPath, call: Option<Byte>, resp: bool, start: Option<Req>)
    requires RLogs(p) && !(call.Some? && resp)
    requires call.Some? ==> |p.calls| < |p.issued| && p.issued[|p.calls|] == p.cur
    requires resp ==> |p.resps| < |p.calls| && p.calls[|p.resps|].addr == p.cur.addr
    requires start.Some? ==> |p.issued| == |p.resps| + if resp then 1 else 0
    requires q.calls == if call.Some? then p.calls + [Call(p.cur.addr, p.cur.size, call.value)] else p.calls
    requires q.resps == if resp then p.resps + [Due(p.calls[|p.resps|].data, p.cur.addr)] else p.resps
    requires q.issued == if start.Some? then p.issued + [start.value] else p.issued
    ensures RLogs(q)
  {
    forall k | 0 <= k < |q.calls| ensures Req(q.calls[k].addr, q.calls[k].size) == q.issued[k] {
      assert k < |p.calls| ==> q.calls[k] == p.calls[k];
    }
    forall k | 0 <= k < |q.resps| ensures q.resps[k] == Due(q.calls[k].data, q.calls[k].addr) {
      assert k < |p.resps| ==> q.resps[k] == p.resps[k];
    }
  }

  lemma RLogsStep(p: RPath, x: RIn)
    requires RInv(p)
    ensures RLogs(RCycle(p, x))
    ensures RRank(p) == 1 ==> |RCycle(p, x).resps| == |p.issued|
  {
    RLogsGrow(p, x);
    RLogsKept(p, RCycle(p, x), if RRank(p) == 4 then Some(x.data) else None, RRank(p) == 1,
              if RRank(p) <= 1 then x.start else None);
  }

  lemma {:induction false} RInvAlways(xs: seq<RIn>)
    ensures RInv(RRun(RStart(), xs))
  {
    if xs == [] {
    } else {
      var before := xs[..|xs| - 1];
      RInvAlways(before);
      RPhaseStep(RRun(RStart(), before), xs[|xs| - 1]);
      RLogsStep(RRun(RStart(), before), xs[|xs| - 1]);
    }
  }

  /** Exactly-once reads, in every reachable state: device calls answer the requests one for one and in order, with
      the request's address and size; each answer taken is marked last and OKAY and carries the byte its own call
      returned, in the addressed lane, and without an answer the channel shows its reset values; at most one request is unanswered, and none when the master is idle. */
  lemma ExactlyOnceReads(xs: seq<RIn>, k: nat)
    ensures
      var p := RRun(RStart(), xs);
      && |p.resps| <= |p.calls| <= |p.issued| <= |p.resps| + 1
      && (p.m == Idle ==> |p.issued| == |p.calls| == |p.resps|) && ResetUnlessValid(p.seen)
      && (k < |p.calls| ==> p.calls[k].addr == p.issued[k].addr && p.calls[k].size == p.issued[k].size)
      && (k < |p.resps| ==> p.resps[k].resp == Okay && p.resps[k].last)
      && (k < |p.resps| ==> |p.resps[k].word| == BUS && p.resps[k].word[p.issued[k].addr % BUS] == p.calls[k].data)
  {
    RInvAlways(xs);
  }

  lemma {:induction false} RAnswered(p: RPath, xs: seq<RIn>)
    requires RInv(p) && p.m != Idle && |xs| == RRank(p)
    requires forall n :: 0 <= n < |xs| ==> xs[n].ready
    ensures |RRun(p, xs).resps| == |p.issued|
    decreases |xs|
  {
    RPhaseStep(p, xs[0]);
    RLogsStep(p, xs[0]);
    RunCons(p, xs);
    if |xs| == 1 {
      assert xs[1..] == [];
    } else {
      RAnswered(RCycle(p, xs[0]), xs[1..]);
    }
  }

  lemma {:induction false} RunCons(p: RPath, xs: seq<RIn>)
    requires xs != []
    ensures RRun(p, xs) == RRun(RCycle(p, xs[0]), xs[1..])
    decreases |xs|
  {
    var before := xs[..|xs| - 1];
    if before == [] {
      assert RRun(p, before) == p && xs[1..] == [];
    } else {
      RunCons(p, before);
      assert before[1..] == xs[1..][..|xs[1..]| - 1];
    }
  }

  /** A read is answered at most five cycles after the one that issued it, if the master is ready for the answer. */
  lemma ReadsCompleteInTime(past: seq<RIn>, xs: seq<RIn>)
    requires RRun(RStart(), past).m != Idle && |xs| == RRank(RRun(RStart(), past))
    requires forall n :: 0 <= n < |xs| ==> xs[n].ready
    ensures |xs| <= 5 && |RRun(RRun(RStart(), past), xs).resps| == |RRun(RStart(), past).issued|
  {
    RInvAlways(past);
    RAnswered(RRun(RStart(), past), xs);
  }

  // ----- Writes -----

  datatype WReq = WReq(addr: nat, size: nat, word: Word)

  /** A device write, and the `last` mark of the beat it came with. */
  datatype WCall = WCall(addr: nat, size: nat, data: Byte, last: bool)

  /** The data of a write: not offered yet, offered, or accepted. It is never offered before the address. */
  datatype DPhase = Later | Offered | Accepted

  datatype WPath = WPath(active: bool, asking: bool, d: DPhase, cur: WReq, ready: bool, seen: WriteSl,
                         c: CvtWrite, u: WriteFsm, issued: seq<WReq>, calls: seq<WCall>, resps: seq<Resp>)

  datatype WIn = WIn(start: Option<WReq>, offer: bool, ready: bool) {
    predicate Ok() {
      start.Some? ==> |start.value.word| == BUS
    }
  }

  function WStart(): WPath {
    var c := CvtWrite(ADDR_EMPTY, WDAT_EMPTY, WRES_EMPTY);
    WPath(false, false, Later, WReq(0, 0, seq(BUS, _ => 0)), false, WriteUp(c), c, WRITE_RESET, [], [], [])
  }

  function WEdge(p: WPath, x: WIn): WPath {
    var taken := p.active && p.seen.resValid && p.ready;
    if p.active && !taken then
      p.(ready := x.ready, asking := p.asking && !p.seen.addrReady,
         d := match p.d
              case Later => if x.offer then Offered else Later
              case Offered => if p.seen.datReady then Accepted else Offered
              case Accepted => Accepted)
    else
      var q := p.(ready := x.ready, active := false, asking := false,
                  resps := if taken then p.resps + [p.seen.resp] else p.resps);
      if x.start.Some?
      then q.(active := true, asking := true, d := if x.offer then Offered else Later, cur := x.start.value,
              issued := p.issued + [x.start.value])
      else q
  }

  function WDrive(p: WPath): WriteMa<Word> {
    WriteMa(AddrMa(p.cur.addr, p.cur.size, 0, p.asking), p.cur.word, p.active && p.d == Offered, true, p.ready)
  }

  function WCycle(p0: WPath, x: WIn): (p': WPath)
    requires |p0.cur.word| == BUS && x.Ok()
    ensures |p'.cur.word| == BUS
  {
    var p := WEdge(p0, x);
    var (u', call) := WriteStep(p.u, WriteDown(p.c), WriteDev(true, true, false));
    p.(seen := WriteUp(p.c), c := CvtWriteStep(p.c, WDrive(p), p.u.out), u := u',
       calls := if call.DevWrite? then p.calls + [WCall(call.addr, call.size, call.data, WriteDown(p.c).last)]
                else p.calls)
  }

  predicate WIdle(u: WriteFsm) {
    u.st == WInit && !u.out.addrReady && !u.out.datReady && !u.out.resValid
  }

  predicate WFree(d: WdatReg) {
    d == WDAT_EMPTY
  }

  predicate BFree(b: WresReg) {
    b == WRES_EMPTY
  }

  /** What the device must be given for a request: the addressed lane of its word, as a last beat. */
  function Wanted(q: WReq): WCall
    requires |q.word| == BUS
  {
    WCall(q.addr, q.size, q.word[q.addr % BUS], true)
  }

  ghost predicate WLogs(p: WPath) {
    && |p.resps| <= |p.calls| <= |p.issued| <= |p.resps| + 1
    && (forall k :: 0 <= k < |p.issued| ==> |p.issued[k].word| == BUS)
    && (forall k :: 0 <= k < |p.calls| ==> p.calls[k] == Wanted(p.issued[k]))
    && (forall k :: 0 <= k < |p.resps| ==> p.resps[k] == Okay)
  }

  /** Cycles still needed if the master offers the data and is ready for the response. */
  ghost function WRank(p: WPath): nat {
    if !p.active then 0
    else if |p.calls| < |p.issued| then if p.u.st == WAddrData && p.c.d.full then 4 else 5
    else if p.u.st == WEnd then 3
    else if p.c.b.full then 2 else 1
  }

  ghost predicate WPhaseInv(p: WPath) {
    var n := |p.resps|;
    && |p.cur.word| == BUS
    && if WRank(p) == 0 then
         |p.issued| == n && !p.asking && Empty(p.c.a) && WFree(p.c.d) && BFree(p.c.b) && WIdle(p.u) && !p.seen.resValid
       else
         && |p.issued| == n + 1 && p.issued[n] == p.cur
         && if WRank(p) >= 4 then
              && |p.calls| == n && BFree(p.c.b) && !p.seen.resValid && WAddress(p) && WData(p)
            else
              && |p.calls| == n + 1 && !p.asking && p.d == Accepted && Empty(p.c.a)
              && if WRank(p) == 3 then
                   && BFree(p.c.b) && !p.seen.resValid && p.c.d.full
                   && p.u.out == WriteSl(false, true, Okay, true)
                 else
                   && WFree(p.c.d) && WIdle(p.u)
                   && if p.c.b.full then p.c.b.valid && p.c.b.resp == Okay && (p.seen.resValid ==> !p.ready)
                      else BFree(p.c.b) && p.seen.resValid && p.seen.resp == Okay && p.ready
  }

  /** The address on its way: in the converter, just accepted by the UART, or done. */
  ghost predicate WAddress(p: WPath) {
    var a := AddrMa(p.cur.addr, p.cur.size, 0, true);
    if p.asking then p.seen.addrReady && p.c.a == AddrReg(true, a) && WIdle(p.u)
    else
      && p.u.st == WAddrData && p.u.addr == p.cur.addr && p.u.size == p.cur.size
      && !p.u.out.datReady && !p.u.out.resValid
      && if p.u.out.addrReady then p.c.a == AddrReg(true, a) else p.c.a == AddrReg(false, a.(valid := false))
  }

  /** The data on its way: with the master, or in the converter with the right lane picked. */
  ghost predicate WData(p: WPath)
    requires |p.cur.word| == BUS
  {
    if p.d == Later then WFree(p.c.d)
    else p.c.d == WdatReg(true, p.cur.word[p.cur.addr % BUS], true, true) && (p.d == Offered ==> p.seen.datReady)
  }

  lemma WPhaseStep(p: WPath, x: WIn)
    requires WPhaseInv(p) && WLogs(p) && x.Ok()
    ensures WPhaseInv(WCycle(p, x))
    ensures WRank(p) > 1 ==> WCycle(p, x).issued == p.issued
    ensures WRank(p) > 1 && x.offer && x.ready ==> WRank(WCycle(p, x)) == WRank(p) - 1
  {
    LaneRoundTrip(0, p.cur.word, p.cur.addr);
    if x.start.Some? { LaneRoundTrip(0, x.start.value.word, x.start.value.addr); }
  }

  /** What one cycle adds to the logs: the device is called in phase 4 only, the response taken in phase 1 only. */
  lemma WLogsGrow(p: WPath, x: WIn)
    requires WPhaseInv(p) && WLogs(p) && x.Ok()
    ensures
      var p' := WCycle(p, x);
      && p'.calls == (if WRank(p) == 4 then p.calls + [Wanted(p.cur)] else p.calls)
      && p'.resps == (if WRank(p) == 1 then p.resps + [Okay] else p.resps)
      && p'.issued == (if WRank(p) <= 1 && x.start.Some? then p.issued + [x.start.value] else p.issued)
  {
  }

  lemma WLogsKept(p: WPath, q: WPath, call: bool, resp: bool, start: Option<WReq>)
    requires WLogs(p) && |p.cur.word| == BUS && !(call && resp)
    requires call ==> |p.calls| < |p.issued| && p.issued[|p.calls|] == p.cur
    requires resp ==> |p.resps| < |p.calls|
    requires start.Some? ==> |start.value.word| == BUS && |p.issued| == |p.resps| + if resp then 1 else 0
    requires q.calls == if call then p.calls + [Wanted(p.cur)] else p.calls
    requires q.resps == if resp then p.resps + [Okay] else p.resps
    requires q.issued == if start.Some? then p.issued + [start.value] else p.issued
    ensures WLogs(q)
  {
  }

  lemma WLogsStep(p: WPath, x: WIn)
    requires WPhaseInv(p) && WLogs(p) && x.Ok()
    ensures WLogs(WCycle(p, x))
    ensures WRank(p) == 1 ==> |WCycle(p, x).resps| == |p.issued|
  {
    WLogsGrow(p, x);
    WLogsKept(p, WCycle(p, x), WRank(p) == 4, WRank(p) == 1, if WRank(p) <= 1 then x.start else None);
  }

  function WRun(p: WPath, xs: seq<WIn>): (q: WPath)
    requires |p.cur.word| == BUS && forall n :: 0 <= n < |xs| ==> xs[n].Ok()
    ensures |q.cur.word| == BUS
  {
    if xs == [] then p else WCycle(WRun(p, xs[..|xs| - 1]), xs[|xs| - 1])
  }

  lemma {:induction false} WInvAlways(xs: seq<WIn>)
    requires forall n :: 0 <= n < |xs| ==> xs[n].Ok()
    ensures WPhaseInv(WRun(WStart(), xs)) && WLogs(WRun(WStart(), xs))
  {
    if xs == [] {
    } else {
      var before := xs[..|xs| - 1];
      WInvAlways(before);
      WPhaseStep(WRun(WStart(), before), xs[|xs| - 1]);
      WLogsStep(WRun(WStart(), before), xs[|xs| - 1]);
    }
  }

  /** Exactly-once writes, in every reachable state: device writes answer the requests one for one and in order, with
      the request's address and size and the addressed byte of its word, each in a beat marked last; each gets one response; at most one
      request is unanswered, and none when the master is idle. */
  lemma ExactlyOnceWrites(xs: seq<WIn>, k: nat)
    requires forall n :: 0 <= n < |xs| ==> xs[n].Ok()
    ensures
      var p := WRun(WStart(), xs);
      && |p.resps| <= |p.calls| <= |p.issued| <= |p.resps| + 1
      && (!p.active ==> |p.issued| == |p.calls| == |p.resps|)
      && (k < |p.issued| ==> |p.issued[k].word| == BUS)
      && (k < |p.calls| ==> p.calls[k] == Wanted(p.issued[k]))
      && (k < |p.resps| ==> p.resps[k] == Okay)
  {
    WInvAlways(xs);
  }

  lemma {:induction false} WRunCons(p: WPath, xs: seq<WIn>)
    requires |p.cur.word| == BUS && xs != [] && forall n :: 0 <= n < |xs| ==> xs[n].Ok()
    ensures WRun(p, xs) == WRun(WCycle(p, xs[0]), xs[1..])
    decreases |xs|
  {
    var before := xs[..|xs| - 1];
    if before == [] {
      assert WRun(p, before) == p && xs[1..] == [];
    } else {
      WRunCons(p, before);
      assert before[1..] == xs[1..][..|xs[1..]| - 1];
    }
  }

  lemma {:induction false} WAnswered(p: WPath, xs: seq<WIn>)
    requires WPhaseInv(p) && WLogs(p) && p.active && |xs| == WRank(p)
    requires forall n :: 0 <= n < |xs| ==> xs[n].Ok() && xs[n].offer && xs[n].ready
    ensures |WRun(p, xs).resps| == |p.issued|
    decreases |xs|
  {
    WPhaseStep(p, xs[0]);
    WLogsStep(p, xs[0]);
    WRunCons(p, xs);
    if |xs| == 1 {
      assert xs[1..] == [];
    } else {
      WAnswered(WCycle(p, xs[0]), xs[1..]);
    }
  }

  /** A write is answered at most five cycles after the one that issued it, if the master offers the data and is
      ready for the response. */
  lemma WritesCompleteInTime(past: seq<WIn>, xs: seq<WIn>)
    requires forall n :: 0 <= n < |past| ==> past[n].Ok()
    requires WRun(WStart(), past).active && |xs| == WRank(WRun(WStart(), past))
    requires forall n :: 0 <= n < |xs| ==> xs[n].Ok() && xs[n].offer && xs[n].ready
    ensures |xs| <= 5 && |WRun(WRun(WStart(), past), xs).resps| == |WRun(WStart(), past).issued|
  {
    WInvAlways(past);
    WAnswered(WRun(WStart(), past), xs);
  }
}
