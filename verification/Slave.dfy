/** AXI4L::TSlaveFSM (io/RVProc_io.h): the burst state machines of a slave device.
    The device behind the virtual devReadSetup/devRead/devWriteSetup/devWrite is
    symbolic: each cycle brings the answers it would give if it were asked, and each
    step reports the call that was made. */
module Slave {
  import opened Axi

  datatype RPhase = RInit | RAddr | REnd

  datatype ReadFsm<D> = ReadFsm(st: RPhase, addr: nat, size: nat, count: nat,
                                addrEnd: bool, burstEnd: bool, out: ReadSl<D>)

  /** Answers of the device in one cycle: devReadSetup, and devRead with its data. */
  datatype ReadDev<D> = ReadDev(setupOk: bool, ok: bool, data: D)

  datatype ReadCall<D> =
    | NoRead
    | ReadSetup(accepted: bool)
    | DevRead(addr: nat, size: nat, ok: bool, data: D)

  function ReadReset<D>(zero: D): ReadFsm<D> {
    ReadFsm(RInit, 0, 0, 0, false, false, ReadSlReset(zero))
  }

  /** One call of fsmRead. */
  function ReadStep<D>(s: ReadFsm<D>, ma: ReadMa, dev: ReadDev<D>, zero: D): (ReadFsm<D>, ReadCall<D>) {
    match s.st
    case RInit =>
      if !ma.raddr.valid then (s, NoRead)
      else if !dev.setupOk then (s, ReadSetup(false))
      else (ReadFsm(RAddr, ma.raddr.addr, ma.raddr.size, ma.raddr.len, false, false,
                    s.out.(addrReady := true)), ReadSetup(true))
    case RAddr =>
      var a := s.(addrEnd := s.addrEnd || !ma.raddr.valid, out := s.out.(addrReady := false));
      var held := s.out.valid && s.burstEnd;
      var call := if held then NoRead else DevRead(s.addr, s.size, dev.ok, dev.data);
      if !held && !dev.ok then (a, call)
      else
        var d := if held then s.out.data else dev.data;
        var b := a.(out := ReadSl(false, d, Okay, true, s.count == 0));
        if s.count != 0 then (b.(count := s.count - 1), call)
        else (b.(burstEnd := true, st := if ma.ready then REnd else RAddr), call)
    case REnd =>
      var a := s.(out := ReadSlReset(zero).(addrReady := s.out.addrReady));
      (if s.addrEnd || !ma.raddr.valid then a.(st := RInit) else a, NoRead)
  }

  datatype WPhase = WInit | WAddrData | WBurst | WEnd

  datatype WriteFsm = WriteFsm(st: WPhase, addr: nat, size: nat, count: nat,
                               addrEnd: bool, resEnd: bool, out: WriteSl)

  /** Answers of the device in one cycle: devWriteSetup, devWrite and mutexError. */
  datatype WriteDev = WriteDev(setupOk: bool, ok: bool, fault: bool)

  datatype WriteCall<D> =
    | NoWrite
    | WriteSetup(accepted: bool)
    | DevWrite(addr: nat, size: nat, ok: bool, data: D)

  const WRITE_RESET := WriteFsm(WInit, 0, 0, 0, false, false, WRITE_SL_RESET)

  /** One call of fsmWrite. */
  function WriteStep<D>(s: WriteFsm, ma: WriteMa<D>, dev: WriteDev): (WriteFsm, WriteCall<D>) {
    var resp := if dev.fault then SlvErr else Okay;
    match s.st
    case WInit =>
      if !ma.waddr.valid then (s, NoWrite)
      else if !dev.setupOk then (s, WriteSetup(false))
      else
        var burst := ma.waddr.len != 0;
        (WriteFsm(if burst then WBurst else WAddrData, ma.waddr.addr, ma.waddr.size, ma.waddr.len, false,
                  s.resEnd, s.out.(addrReady := true, datReady := burst || s.out.datReady)), WriteSetup(true))
    case WAddrData =>
      var a := s.(addrEnd := s.addrEnd || !ma.waddr.valid, out := s.out.(addrReady := false));
      if !ma.valid then (a, NoWrite)
      else
        var call := DevWrite(s.addr, s.size, dev.ok, ma.data);
        (if dev.ok then a.(st := WEnd, resEnd := false, out := WriteSl(false, true, resp, true)) else a, call)
    case WBurst =>
      var a := s.(addrEnd := s.addrEnd || !ma.waddr.valid, out := s.out.(addrReady := false));
      if !ma.valid then (a, NoWrite)
      else
        var call := DevWrite(s.addr, s.size, dev.ok, ma.data);
        (if !dev.ok then a
         else if s.count == 0 then a.(st := WEnd, resEnd := false, out := WriteSl(false, false, resp, true))
         else a.(count := s.count - 1, resEnd := false), call)
    case WEnd =>
      var ended := s.resEnd || ma.resReady;
      var a := s.(resEnd := ended, out := s.out.(datReady := false));
      (if ended && (s.addrEnd || !ma.waddr.valid)
       then a.(st := WInit, out := a.out.(resp := Okay, resValid := false)) else a, NoWrite)
  }

  /** TSlaveFSM as an object: fsmRead and fsmWrite update the registers in place. */
  class SlaveFsm<D> {
    const zero: D
    var rState: RPhase
    var raddr: nat
    var rsize: nat
    var burstCountR: nat
    var raddrEnd: bool
    var burstEndR: bool
    var outR: ReadSl<D>
    var wState: WPhase
    var waddr: nat
    var wsize: nat
    var burstCountW: nat
    var waddrEnd: bool
    var wresEnd: bool
    var outW: WriteSl

    ghost function Reads(): ReadFsm<D>
      reads this
    {
      ReadFsm(rState, raddr, rsize, burstCountR, raddrEnd, burstEndR, outR)
    }

    ghost function Writes(): WriteFsm
      reads this
    {
      WriteFsm(wState, waddr, wsize, burstCountW, waddrEnd, wresEnd, outW)
    }

    constructor (zero: D)
      ensures this.zero == zero && Reads() == ReadReset(zero) && Writes() == WRITE_RESET
    {
      this.zero := zero;
      rState, raddr, rsize, burstCountR, raddrEnd, burstEndR := RInit, 0, 0, 0, false, false;
      outR := ReadSlReset(zero);
      wState, waddr, wsize, burstCountW, waddrEnd, wresEnd := WInit, 0, 0, 0, false, false;
      outW := WRITE_SL_RESET;
    }

    method FsmRead(axi: ReadMa, dev: ReadDev<D>) returns (call: ReadCall<D>)
      modifies this
      ensures (Reads(), call) == ReadStep(old(Reads()), axi, dev, zero)
      ensures Writes() == old(Writes())
    {
      call := NoRead;
      match rState {
        case RInit =>
          if axi.raddr.valid {
            call := ReadSetup(dev.setupOk);
            if dev.setupOk {
              raddr := axi.raddr.addr;
              rsize := axi.raddr.size;
              burstCountR := axi.raddr.len;
              burstEndR := false;
              outR := outR.(addrReady := true);
              raddrEnd := false;
              rState := RAddr;
            }
          }
        case RAddr =>
          outR := outR.(addrReady := false);
          if !axi.raddr.valid { raddrEnd := true; }
          var d := outR.data;
          var fetched := outR.valid && burstEndR;
          if !fetched {
            call := DevRead(raddr, rsize, dev.ok, dev.data);
            d, fetched := dev.data, dev.ok;
          }
          if fetched {
            outR := outR.(data := d, resp := Okay, valid := true, last := burstCountR == 0);
            if burstCountR == 0 {
              if axi.ready { rState := REnd; }
              burstEndR := true;
            } else {
              burstCountR := burstCountR - 1;
            }
          }
        case REnd =>
          outR := outR.(data := zero, resp := Okay, valid := false, last := false);
          if raddrEnd || !axi.raddr.valid { rState := RInit; }
      }
    }

    method FsmWrite(axi: WriteMa<D>, dev: WriteDev) returns (call: WriteCall<D>)
      modifies this
      ensures (Writes(), call) == WriteStep(old(Writes()), axi, dev)
      ensures Reads() == old(Reads())
    {
      match wState {
        case WInit => call := AcceptWrite(axi, dev);
        case WAddrData => call := TakeSingle(axi, dev);
        case WBurst => call := TakeBeat(axi, dev);
        case WEnd =>
          EndWrite(axi);
          call := NoWrite;
      }
    }

    method AcceptWrite(axi: WriteMa<D>, dev: WriteDev) returns (call: WriteCall<D>)
      requires wState == WInit
      modifies this
      ensures (Writes(), call) == WriteStep(old(Writes()), axi, dev)
      ensures Reads() == old(Reads())
    {
      call := NoWrite;
      if axi.waddr.valid {
        call := WriteSetup(dev.setupOk);
        if dev.setupOk {
          waddr := axi.waddr.addr;
          wsize := axi.waddr.size;
          burstCountW := axi.waddr.len;
          outW := outW.(addrReady := true);
          waddrEnd := false;
          if axi.waddr.len != 0 {
            outW := outW.(datReady := true);
            wState := WBurst;
          } else {
            wState := WAddrData;
          }
        }
      }
    }

    method TakeSingle(axi: WriteMa<D>, dev: WriteDev) returns (call: WriteCall<D>)
      requires wState == WAddrData
      modifies this
      ensures (Writes(), call) == WriteStep(old(Writes()), axi, dev)
      ensures Reads() == old(Reads())
    {
      call := NoWrite;
      outW := outW.(addrReady := false);
      if !axi.waddr.valid { waddrEnd := true; }
      if axi.valid {
        call := DevWrite(waddr, wsize, dev.ok, axi.data);
        if dev.ok {
          wresEnd := false;
          outW := outW.(datReady := true);
          wState := WEnd;
          outW := outW.(resp := if dev.fault then SlvErr else Okay, resValid := true);
        }
      }
    }

    method TakeBeat(axi: WriteMa<D>, dev: WriteDev) returns (call: WriteCall<D>)
      requires wState == WBurst
      modifies this
      ensures (Writes(), call) == WriteStep(old(Writes()), axi, dev)
      ensures Reads() == old(Reads())
    {
      call := NoWrite;
      outW := outW.(addrReady := false);
      if !axi.waddr.valid { waddrEnd := true; }
      if axi.valid {
        call := DevWrite(waddr, wsize, dev.ok, axi.data);
        if dev.ok {
          wresEnd := false;
          if burstCountW == 0 {
            outW := outW.(datReady := false);
            wState := WEnd;
            outW := outW.(resp := if dev.fault then SlvErr else Okay, resValid := true);
          } else {
            burstCountW := burstCountW - 1;
          }
        }
      }
    }

    method EndWrite(axi: WriteMa<D>)
      requires wState == WEnd
      modifies this
      ensures Reads() == old(Reads())
      ensures forall dev :: WriteStep(old(Writes()), axi, dev) == (Writes(), NoWrite)
    {
      outW := outW.(datReady := false);
      if axi.resReady { wresEnd := true; }
      if wresEnd && (waddrEnd || !axi.waddr.valid) {
        outW := outW.(resp := Okay, resValid := false);
        wState := WInit;
      }
    }
  }

  // ----- Burst accounting over whole runs, for any device and any master -----

  /** Since the current (or last) read burst was accepted: what the device returned, and whether the master
      withdrew the address. */
  datatype ReadLog<D> = ReadLog(len: nat, beats: seq<D>, released: bool)

  datatype ReadIn<D> = ReadIn(ma: ReadMa, dev: ReadDev<D>)

  function LogRead<D>(log: ReadLog<D>, ma: ReadMa, call: ReadCall<D>): ReadLog<D> {
    var now := log.(released := log.released || !ma.raddr.valid);
    match call
    case NoRead => now
    case ReadSetup(accepted) => if accepted then ReadLog(ma.raddr.len, [], false) else now
    case DevRead(_, _, ok, data) => if ok then now.(beats := now.beats + [data]) else now
  }

  /** The state and log after a run from reset. */
  function ReadRun<D>(ins: seq<ReadIn<D>>, zero: D): (ReadFsm<D>, ReadLog<D>) {
    if ins == [] then (ReadReset(zero), ReadLog(0, [], true))
    else
      var (s, log) := ReadRun(ins[..|ins| - 1], zero);
      var i := ins[|ins| - 1];
      var (s', call) := ReadStep(s, i.ma, i.dev, zero);
      (s', LogRead(log, i.ma, call))
  }

  ghost predicate ReadAccount<D>(s: ReadFsm<D>, log: ReadLog<D>, zero: D) {
    var n := |log.beats|;
    && (s.st == RInit ==> !s.out.valid && !s.out.last)
    && (s.st == REnd ==> n == log.len + 1)
    && (s.st == RAddr && !s.burstEnd ==> s.count + n == log.len && s.out.valid == (n > 0) && !s.out.last)
    && (s.st == RAddr && s.burstEnd ==> s.count == 0 && n == log.len + 1)
    && (s.st == RAddr && s.burstEnd ==> s.out.valid && s.out.last)
    && (s.st == REnd ==> s.out.valid == s.out.last)
    && (s.out.valid ==> s.st != RInit && n > 0 && s.out.data == log.beats[n - 1])
    && (!s.out.valid ==> s.out == ReadSlReset(zero).(addrReady := s.out.addrReady))
    && s.out.resp == Okay && (s.out.addrReady ==> s.st == RAddr)
    && log.released == (s.st == RInit || s.addrEnd)
  }

  lemma ReadAccountStep<D>(s: ReadFsm<D>, log: ReadLog<D>, ma: ReadMa, dev: ReadDev<D>, zero: D)
    requires ReadAccount(s, log, zero)
    ensures ReadAccount(ReadStep(s, ma, dev, zero).0, LogRead(log, ma, ReadStep(s, ma, dev, zero).1), zero)
  {
  }

  lemma {:induction false} ReadAccountHolds<D>(ins: seq<ReadIn<D>>, zero: D)
    ensures ReadAccount(ReadRun(ins, zero).0, ReadRun(ins, zero).1, zero)
  {
    if ins == [] {
    } else {
      var before, x := ReadRun(ins[..|ins| - 1], zero), ins[|ins| - 1];
      ReadAccountHolds(ins[..|ins| - 1], zero);
      ReadAccountStep(before.0, before.1, x.ma, x.dev, zero);
    }
  }

  /** Slave burst accounting, reads: after any run from reset, for any device readiness and any master,
      the next cycle delivers at most one device value, unchanged and with an OKAY response; `last` marks exactly beat len; a burst
      completes only after exactly len+1 successful device reads; a last beat the master has not
      taken is held without asking the device again. Without a beat the channel shows its reset values, and
      `ready` for the address is up for one cycle, after the burst was accepted. */
  lemma ReadBurstAccounting<D>(ins: seq<ReadIn<D>>, now: ReadIn<D>, zero: D)
    ensures
      var (s, log) := ReadRun(ins, zero);
      var (s', call) := ReadStep(s, now.ma, now.dev, zero);
      var log' := LogRead(log, now.ma, call);
      && (call.DevRead? && call.ok ==>
            && log'.beats == log.beats + [call.data] && |log'.beats| <= log'.len + 1
            && s'.out.valid && s'.out.data == call.data
            && (s'.out.last <==> |log'.beats| == log'.len + 1))
      && (s.st == RAddr && s'.st == REnd ==> s'.out.valid && s'.out.last && |log'.beats| == log'.len + 1)
      && (s.st == RAddr && s.out.last && !now.ma.ready ==> s'.out == s.out.(addrReady := false) && s'.st == RAddr)
      && (s.st == RAddr && s.out.last ==> call.NoRead?)
      && (if s'.out.valid then s'.out.resp == Okay else s'.out == ReadSlReset(zero).(addrReady := s'.out.addrReady))
      && (s'.out.addrReady <==> call == ReadSetup(true))
  {
    ReadAccountHolds(ins, zero);
  }

  /** No address is accepted twice: after any run from reset, the device is asked for a new burst only if the master
      has withdrawn the address since the last one was accepted, and the slave waits for exactly that. */
  lemma ReadAcceptedOnce<D>(ins: seq<ReadIn<D>>, now: ReadIn<D>, zero: D)
    ensures
      var (s, log) := ReadRun(ins, zero);
      var (s', call) := ReadStep(s, now.ma, now.dev, zero);
      && (call.ReadSetup? ==> log.released && now.ma.raddr.valid)
      && (s.st == REnd ==> (s'.st == RInit <==> LogRead(log, now.ma, call).released))
      && (s.st == RInit && now.ma.raddr.valid ==> call == ReadSetup(now.dev.setupOk))
  {
    ReadAccountHolds(ins, zero);
  }

  /** Since the current (or last) write was accepted: what the device accepted; whether the master withdrew the
      address at all, and before all beats were accepted; and whether it was ready for the response since then. */
  datatype WriteLog<D> = WriteLog(len: nat, beats: seq<D>, released: bool, early: bool, taken: bool)

  datatype WriteIn<D> = WriteIn(ma: WriteMa<D>, dev: WriteDev)

  function LogWrite<D>(log: WriteLog<D>, ma: WriteMa<D>, call: WriteCall<D>): WriteLog<D> {
    var now := log.(released := log.released || !ma.waddr.valid, taken := log.taken || ma.resReady,
                    early := log.early || (!ma.waddr.valid && |log.beats| <= log.len));
    match call
    case NoWrite => now
    case WriteSetup(accepted) => if accepted then WriteLog(ma.waddr.len, [], false, false, false) else now
    case DevWrite(_, _, ok, data) => if ok then now.(beats := now.beats + [data], taken := false) else now
  }

  function WriteRun<D>(ins: seq<WriteIn<D>>): (WriteFsm, WriteLog<D>) {
    if ins == [] then (WRITE_RESET, WriteLog(0, [], true, true, true))
    else
      var (s, log) := WriteRun(ins[..|ins| - 1]);
      var i := ins[|ins| - 1];
      var (s', call) := WriteStep(s, i.ma, i.dev);
      (s', LogWrite(log, i.ma, call))
  }

  ghost predicate WriteAccount<D>(s: WriteFsm, log: WriteLog<D>) {
    var n := |log.beats|;
    && (s.out.resValid <==> s.st == WEnd)
    && (!s.out.resValid ==> s.out.resp == Okay)
    && (s.st == WEnd ==> n == log.len + 1)
    && (s.st == WBurst ==> s.count + n == log.len)
    && (s.st == WAddrData ==> n == log.len == 0)
    && (s.out.addrReady ==> s.st == WAddrData || s.st == WBurst)
    && (s.out.datReady ==> s.st == WBurst || s.st == WEnd) && (s.st == WBurst ==> s.out.datReady && log.len > 0)
    && (s.st == WInit ==> log.released) && (s.st != WInit ==> s.addrEnd == log.early)
    && (s.st == WEnd ==> s.resEnd == log.taken) && (log.early ==> log.released)
  }

  lemma WriteAccountStep<D>(s: WriteFsm, log: WriteLog<D>, ma: WriteMa<D>, dev: WriteDev)
    requires WriteAccount(s, log)
    ensures WriteAccount(WriteStep(s, ma, dev).0, LogWrite(log, ma, WriteStep(s, ma, dev).1))
  {
  }

  lemma {:induction false} WriteAccountHolds<D>(ins: seq<WriteIn<D>>)
    ensures WriteAccount(WriteRun(ins).0, WriteRun(ins).1)
  {
    if ins == [] {
    } else {
      var before, x := WriteRun(ins[..|ins| - 1]), ins[|ins| - 1];
      WriteAccountHolds(ins[..|ins| - 1]);
      WriteAccountStep(before.0, before.1, x.ma, x.dev);
    }
  }

  /** Slave burst accounting, writes: after any run from reset, for any device readiness and any master,
      the response rises exactly when the device has accepted len+1 beats (in the order offered), it is
      an error exactly if the device reports a fault then, and it stays up, unchanged, until the
      master has taken it. `ready` for the address is up for one cycle, after the write was accepted, and
      `ready` for data from then until the last beat of a burst, or for one cycle after a single beat. */
  lemma WriteBurstAccounting<D>(ins: seq<WriteIn<D>>, now: WriteIn<D>)
    ensures
      var (s, log) := WriteRun(ins);
      var (s', call) := WriteStep(s, now.ma, now.dev);
      var log' := LogWrite(log, now.ma, call);
      && (call.DevWrite? && call.ok ==>
            && call.data == now.ma.data && log'.beats == log.beats + [call.data]
            && |log'.beats| <= log'.len + 1
            && (s'.out.resValid <==> |log'.beats| == log'.len + 1))
      && (!s.out.resValid && s'.out.resValid ==> call.DevWrite? && call.ok && |log'.beats| == log'.len + 1)
      && (!s.out.resValid && s'.out.resValid ==> (s'.out.resp == Okay <==> !now.dev.fault))
      && (s.out.resValid && !log.taken && !now.ma.resReady ==> s'.out.resValid && s'.out.resp == s.out.resp)
      && (s.out.resValid ==> call.NoWrite?) && (!s'.out.resValid ==> s'.out.resp == Okay)
      && (s'.out.addrReady <==> call == WriteSetup(true))
      && (s'.out.datReady <==> if log'.len == 0 then call.DevWrite? && call.ok else s'.st == WBurst)
  {
    WriteAccountHolds(ins);
  }

  /** No address is accepted twice: after any run from reset, the device is asked for a new write only if the master
      has withdrawn the address since the last one was accepted. A write ends in the cycle in which the response has
      been taken and the address either was withdrawn before all beats were accepted or is down now: a withdrawal
      while the response waits is forgotten. */
  lemma WriteAcceptedOnce<D>(ins: seq<WriteIn<D>>, now: WriteIn<D>)
    ensures
      var (s, log) := WriteRun(ins);
      var (s', call) := WriteStep(s, now.ma, now.dev);
      var log' := LogWrite(log, now.ma, call);
      && (call.WriteSetup? ==> log.released && now.ma.waddr.valid)
      && (s.st == WEnd ==> (s'.st == WInit <==> log'.taken && (log.early || !now.ma.waddr.valid)))
      && (s.st == WInit && now.ma.waddr.valid ==> call == WriteSetup(now.dev.setupOk))
  {
    WriteAccountHolds(ins);
  }
}
