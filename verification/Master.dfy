/** AXI4L::MasterFSM (io/RVProc_io.cpp): one read or write operation at a time.
    rw_state and burst_count are shared by the two directions; the specification
    keeps one half per direction, and at most one half is ever busy. */
module Master {
  import opened Axi

  /** One operation requested by the core: burst_length is len, so len+1 beats. */
  datatype Op = Op(addr: nat, size: nat, len: nat)

  datatype MRead = MRead(busy: bool, out: ReadMa, gotAddr: bool, gotData: bool, count: nat)

  /** `seen` latches what the slave has acknowledged so far. */
  datatype MWrite<D> = MWrite(busy: bool, out: WriteMa<D>, seen: WriteSl, count: nat)

  const MREAD_RESET := MRead(false, READ_MA_RESET, false, false, 0)

  function MWriteReset<D>(zero: D): MWrite<D> {
    MWrite(false, WriteMaReset(zero), WRITE_SL_RESET, 0)
  }

  /** The read half of one fsm call; `sl` is what the master sees on its channel. */
  function MReadStep<D>(m: MRead, start: Option<Op>, sl: ReadSl<D>): MRead {
    if !m.busy then
      match start
      case None => m
      case Some(op) => MRead(true, ReadMa(AddrMa(op.addr, op.size, op.len, true), true), false, false, op.len)
    else
      var final := sl.valid && m.count == 0;
      var gotAddr := m.gotAddr || sl.addrReady;
      var gotData := m.gotData || final;
      MRead(!(gotAddr && gotData),
            ReadMa(if sl.addrReady then ADDR_RESET else m.out.raddr, m.out.ready && !final),
            gotAddr, gotData,
            if gotAddr && gotData then 0 else if sl.valid && !final then m.count - 1 else m.count)
  }

  /** The beat the master latches from its channel in this call. */
  function Latched<D>(m: MRead, sl: ReadSl<D>): seq<D> {
    if m.busy && sl.valid then [sl.data] else []
  }

  /** What the write half drives after seeing `sl`: each accepted channel is released, and an accepted
      beat is replaced by the next one until the last. */
  function DriveWrite<D>(m: MWrite<D>, dout: D, sl: WriteSl, zero: D): WriteMa<D> {
    var a := if sl.addrReady then m.out.(waddr := ADDR_RESET) else m.out;
    var b := if !sl.datReady then a
             else if m.count == 0 then a.(data := zero, valid := false, last := false)
             else a.(data := dout, last := m.count == 1);
    if sl.resValid then b.(resReady := false) else b
  }

  /** The write half of one fsm call; `dout` is the data word the core offers. */
  function MWriteStep<D>(m: MWrite<D>, start: Option<Op>, dout: D, sl: WriteSl, zero: D): MWrite<D> {
    if !m.busy then
      match start
      case None => m
      case Some(op) =>
        MWrite(true, WriteMa(AddrMa(op.addr, op.size, op.len, true), dout, true, op.len == 0, true),
               WRITE_SL_RESET, op.len)
    else
      var final := sl.datReady && m.count == 0;
      var seen := Note(m.seen, sl);
      var done := seen.addrReady && (m.seen.datReady || final) && seen.resValid;
      MWrite(!done, DriveWrite(m, dout, sl, zero), seen,
             if done then 0 else if sl.datReady && !final then m.count - 1 else m.count)
  }

  function Note(seen: WriteSl, sl: WriteSl): WriteSl {
    WriteSl(seen.addrReady || sl.addrReady, seen.datReady || sl.datReady,
            if sl.resValid then sl.resp else seen.resp, seen.resValid || sl.resValid)
  }

  /** The call that takes the write half from m to m' tells the core to go on: the write is over, and neither the
      response latched before nor the one on the channel, if any, is bad. */
  predicate Reports<D>(m: MWrite<D>, sl: WriteSl, m': MWrite<D>) {
    m.busy && !m'.busy && m.seen.resp == Okay && (sl.resValid ==> sl.resp == Okay)
  }

  /** The words the master takes from the core in this call. */
  function Taken<D>(m: MWrite<D>, start: Option<Op>, dout: D, sl: WriteSl): seq<D> {
    if (!m.busy && start.Some?) || (m.busy && sl.datReady && m.count != 0) then [dout] else []
  }

  datatype RWState = RWInit | RWRAddr | RWWAddr
  datatype AxiOp = AxiRead | AxiWrite | AxiIdle

  class MasterFsm<D> {
    const zero: D
    var rwState: RWState
    var burstCount: nat
    var outR: ReadMa
    var outW: WriteMa<D>
    var inRAddr: bool
    var inRDat: bool
    var inW: WriteSl

    ghost function ReadHalf(): MRead
      reads this
    {
      MRead(rwState == RWRAddr, outR, inRAddr, inRDat, if rwState == RWRAddr then burstCount else 0)
    }

    ghost function WriteHalf(): MWrite<D>
      reads this
    {
      MWrite(rwState == RWWAddr, outW, inW, if rwState == RWWAddr then burstCount else 0)
    }

    constructor (zero: D)
      ensures this.zero == zero && ReadHalf() == MREAD_RESET && WriteHalf() == MWriteReset(zero)
      ensures rwState == RWInit
    {
      this.zero := zero;
      rwState, burstCount, outR, outW := RWInit, 0, READ_MA_RESET, WriteMaReset(zero);
      inRAddr, inRDat, inW := false, false, WRITE_SL_RESET;
    }

    /** `op` is heeded only between operations; `ready` tells the core whether it may go on: never while
        an operation runs, and not after a write whose response was bad, which the core must issue again. */
    method Fsm(op: AxiOp, a: Op, dout: D, rs: ReadSl<D>, ws: WriteSl)
      returns (ready: bool, din: seq<D>, taken: seq<D>)
      modifies this
      ensures ReadHalf() == MReadStep(old(ReadHalf()),
                                      if old(rwState) == RWInit && op == AxiRead then Some(a) else None, rs)
      ensures WriteHalf() == MWriteStep(old(WriteHalf()),
                                        if old(rwState) == RWInit && op == AxiWrite then Some(a) else None,
                                        dout, ws, zero)
      ensures din == Latched(old(ReadHalf()), rs)
      ensures taken == Taken(old(WriteHalf()),
                             if old(rwState) == RWInit && op == AxiWrite then Some(a) else None, dout, ws)
      ensures old(rwState) != RWWAddr ==> (ready <==> rwState == RWInit)
      ensures old(rwState) == RWWAddr ==> (ready <==> Reports(old(WriteHalf()), ws, WriteHalf()))
    {
      din, taken := [], [];
      match rwState {
        case RWInit =>
          taken := Start(op, a, dout);
          ready := rwState == RWInit;
        case RWRAddr =>
          din := AwaitRead(rs);
          ready := rwState == RWInit;
        case RWWAddr =>
          taken, ready := AwaitWrite(dout, ws);
      }
    }

    method Start(op: AxiOp, a: Op, dout: D) returns (taken: seq<D>)
      requires rwState == RWInit
      modifies this
      ensures rwState == if op == AxiRead then RWRAddr else if op == AxiWrite then RWWAddr else RWInit
      ensures ReadHalf() == if op == AxiRead
                            then MRead(true, ReadMa(AddrMa(a.addr, a.size, a.len, true), true), false, false, a.len)
                            else old(ReadHalf())
      ensures WriteHalf() ==
              if op == AxiWrite
              then MWrite(true, WriteMa(AddrMa(a.addr, a.size, a.len, true), dout, true, a.len == 0, true),
                          WRITE_SL_RESET, a.len)
              else old(WriteHalf())
      ensures taken == if op == AxiWrite then [dout] else []
    {
      taken := [];
      if op == AxiRead {
        outR := ReadMa(AddrMa(a.addr, a.size, a.len, true), true);
        burstCount := a.len;
        inRAddr, inRDat := false, false;
        rwState := RWRAddr;
      } else if op == AxiWrite {
        outW := WriteMa(AddrMa(a.addr, a.size, a.len, true), dout, true, a.len == 0, true);
        burstCount := a.len;
        inW := WRITE_SL_RESET;
        taken := [dout];
        rwState := RWWAddr;
      }
    }

    method AwaitRead(rs: ReadSl<D>) returns (din: seq<D>)
      requires rwState == RWRAddr
      modifies this
      ensures rwState == RWInit || rwState == RWRAddr
      ensures ReadHalf() == MReadStep(old(ReadHalf()), None, rs)
      ensures WriteHalf() == old(WriteHalf())
      ensures din == Latched(old(ReadHalf()), rs)
    {
      din := [];
      if rs.addrReady {
        inRAddr := true;
        outR := outR.(raddr := ADDR_RESET);
      }
      if rs.valid {
        if burstCount == 0 {
          inRDat := true;
          outR := outR.(ready := false);
        } else {
          burstCount := burstCount - 1;
        }
        din := [rs.data];
      }
      if inRAddr && inRDat { rwState := RWInit; }
    }

    method AwaitWrite(dout: D, ws: WriteSl) returns (taken: seq<D>, ready: bool)
      requires rwState == RWWAddr
      modifies this
      ensures rwState == RWInit || rwState == RWWAddr
      ensures ReadHalf() == old(ReadHalf())
      ensures WriteHalf() == MWriteStep(old(WriteHalf()), None, dout, ws, zero)
      ensures taken == Taken(old(WriteHalf()), None, dout, ws)
      ensures ready <==> rwState == RWInit && old(inW.resp) == Okay && (ws.resValid ==> ws.resp == Okay)
    {
      var badResp := inW.resp != Okay || (ws.resValid && ws.resp != Okay);
      var gotData := inW.datReady || (ws.datReady && burstCount == 0);
      outW, taken := Drive(dout, ws);
      inW := Note(inW, ws);
      if ws.datReady && burstCount != 0 { burstCount := burstCount - 1; }
      ready := false;
      if inW.addrReady && gotData && inW.resValid {
        rwState := RWInit;
        ready := !badResp;
      }
    }

    /** The updates of `out` while a write is under way, and the word taken from the core if any. */
    method Drive(dout: D, ws: WriteSl) returns (o: WriteMa<D>, taken: seq<D>)
      requires rwState == RWWAddr
      ensures o == DriveWrite(WriteHalf(), dout, ws, zero)
      ensures taken == Taken(WriteHalf(), None, dout, ws)
    {
      taken := [];
      o := outW;
      if ws.addrReady {
        o := o.(waddr := ADDR_RESET);
      }
      if ws.datReady {
        if burstCount == 0 {
          o := o.(data := zero, valid := false, last := false);
        } else {
          o := o.(data := dout, last := burstCount == 1);
          taken := [dout];
        }
      }
      if ws.resValid {
        o := o.(resReady := false);
      }
    }
  }
}
