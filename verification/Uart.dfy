/** AXI4L::Converter<UINT8> (io/RVProc_io.h) between the 512-bit bus and the 8-bit UART
    channel, with the UART's TSlaveFSM<UINT8> behind it. One cycle is the master's clock
    edge, then Converter::fsm, then the UART's fsm, as in TB::core_tick (RVProcTest.cpp). */
module Uart {
  import opened Axi

  // ----- Byte lanes -----

  lemma SameLane(addr: nat)
    ensures addr % BUS % 8 == addr % 8
  {
    assert addr == 8 * (8 * (addr / BUS)) + addr % BUS;
  }

  /** To_AXI_DType(UINT8): the byte shifted to lane addr & 7 of a 64-bit word, which fills all eight words. */
  function ToBus(b: Byte, addr: nat): (w: Word)
    ensures |w| == BUS && w[addr % BUS] == b
  {
    SameLane(addr);
    seq(BUS, l requires 0 <= l < BUS => if l % 8 == addr % 8 then b else 0)
  }

  /** From_AXI_DType(UINT8): the byte at lane addr & 7 of word (addr >> 3) & 7. */
  function FromBus(w: Word, addr: nat): Byte
    requires |w| == BUS
  {
    w[addr / 8 % 8 * 8 + addr % 8]
  }

  /** A converted byte is read back at every address that shares its lane of 8, and zero at the others. */
  lemma LanesReadBack(b: Byte, addr: nat, a: nat)
    ensures FromBus(ToBus(b, addr), a) == if a % 8 == addr % 8 then b else 0
  {
    assert (a / 8 % 8 * 8 + a % 8) % 8 == a % 8;
  }

  /** The lane conversions agree on the addressed lane, addr % 64. */
  lemma LaneRoundTrip(b: Byte, w: Word, addr: nat)
    requires |w| == BUS
    ensures FromBus(w, addr) == w[addr % BUS]
    ensures FromBus(ToBus(b, addr), addr) == b
  {
    assert addr / 8 % 8 * 8 + addr % 8 == addr % BUS;
  }

  // ----- The converter: one register per channel -----

  /** st_raddr with m_port.raddr, or st_waddr with m_port.waddr. */
  datatype AddrReg = AddrReg(full: bool, addr: AddrMa)

  /** st_rdat with s_port.rdat. */
  datatype RdatReg = RdatReg(full: bool, data: Word, resp: Resp, valid: bool, last: bool)

  /** st_wdat with m_port.wdat. */
  datatype WdatReg = WdatReg(full: bool, data: Byte, valid: bool, last: bool)

  /** st_wres with s_port.wres. */
  datatype WresReg = WresReg(full: bool, resp: Resp, valid: bool)

  datatype CvtRead = CvtRead(a: AddrReg, d: RdatReg)
  datatype CvtWrite = CvtWrite(a: AddrReg, d: WdatReg, b: WresReg)

  const ADDR_EMPTY := AddrReg(false, ADDR_RESET)
  const WDAT_EMPTY := WdatReg(false, 0, false, false)
  const WRES_EMPTY := WresReg(false, Okay, false)

  function RdatEmpty(): RdatReg { RdatReg(false, seq(BUS, _ => 0), Okay, false, false) }

  function AddrStep(r: AddrReg, up: AddrMa, downReady: bool): AddrReg {
    if !r.full then if up.valid then AddrReg(true, up) else r
    else if downReady then AddrReg(false, r.addr.(valid := false)) else r
  }

  function RdatStep(r: RdatReg, down: ReadSl<Byte>, upReady: bool, addr: nat): RdatReg {
    if !r.full then if down.valid then RdatReg(true, ToBus(down.data, addr), down.resp, true, down.last) else r
    else if upReady then RdatEmpty() else r
  }

  function WdatStep(r: WdatReg, up: WriteMa<Word>, downReady: bool, addr: nat): WdatReg
    requires |up.data| == BUS
  {
    if !r.full then if up.valid then WdatReg(true, FromBus(up.data, addr), true, up.last) else r
    else if downReady then WDAT_EMPTY else r
  }

  function WresStep(r: WresReg, down: WriteSl, upReady: bool): WresReg {
    if !r.full then if down.resValid then WresReg(true, down.resp, true) else r
    else if upReady then WRES_EMPTY else r
  }

  /** What the converter drives towards the master and towards the UART, from its registers. */
  function ReadUp(c: CvtRead): ReadSl<Word> {
    ReadSl(!c.a.full, c.d.data, c.d.resp, c.d.valid, c.d.last)
  }

  function ReadDown(c: CvtRead): ReadMa {
    ReadMa(c.a.addr, !c.d.full)
  }

  function WriteUp(c: CvtWrite): WriteSl {
    WriteSl(!c.a.full, !c.d.full, c.b.resp, c.b.valid)
  }

  function WriteDown(c: CvtWrite): WriteMa<Byte> {
    WriteMa(c.a.addr, c.d.data, c.d.valid, c.d.last, !c.b.full)
  }

  /** The address whose lane is used: the one offered in this cycle, else the one last latched. */
  function LaneAddr(r: AddrReg, up: AddrMa): nat {
    if up.valid then up.addr else r.addr.addr
  }

  function CvtReadStep(c: CvtRead, rm: ReadMa, rs: ReadSl<Byte>): CvtRead {
    CvtRead(AddrStep(c.a, rm.raddr, rs.addrReady), RdatStep(c.d, rs, rm.ready, LaneAddr(c.a, rm.raddr)))
  }

  function CvtWriteStep(c: CvtWrite, wm: WriteMa<Word>, ws: WriteSl): CvtWrite
    requires |wm.data| == BUS
  {
    CvtWrite(AddrStep(c.a, wm.waddr, ws.addrReady), WdatStep(c.d, wm, ws.datReady, LaneAddr(c.a, wm.waddr)),
             WresStep(c.b, ws, wm.resReady))
  }

  /** Converter<UINT8> as an object: five registers, each updated once per fsm call. */
  class Converter {
    var raddr: AddrReg
    var rdat: RdatReg
    var waddr: AddrReg
    var wdat: WdatReg
    var wres: WresReg

    ghost function Reads(): CvtRead
      reads this
    {
      CvtRead(raddr, rdat)
    }

    ghost function Writes(): CvtWrite
      reads this
    {
      CvtWrite(waddr, wdat, wres)
    }

    constructor ()
      ensures Reads() == CvtRead(ADDR_EMPTY, RdatEmpty()) && Writes() == CvtWrite(ADDR_EMPTY, WDAT_EMPTY, WRES_EMPTY)
    {
      raddr, rdat, waddr, wdat, wres := ADDR_EMPTY, RdatEmpty(), ADDR_EMPTY, WDAT_EMPTY, WRES_EMPTY;
    }

    method Fsm(rm: ReadMa, wm: WriteMa<Word>, rs: ReadSl<Byte>, ws: WriteSl)
      returns (rsUp: ReadSl<Word>, wsUp: WriteSl, rmDown: ReadMa, wmDown: WriteMa<Byte>)
      requires |wm.data| == BUS
      modifies this
      ensures Reads() == CvtReadStep(old(Reads()), rm, rs) && Writes() == CvtWriteStep(old(Writes()), wm, ws)
      ensures rsUp == ReadUp(old(Reads())) && wsUp == WriteUp(old(Writes()))
      ensures rmDown == ReadDown(old(Reads())) && wmDown == WriteDown(old(Writes()))
    {
      wsUp, wmDown := FsmWrite(wm, ws);
      rsUp, rmDown := FsmRead(rm, rs);
    }

    method FsmRead(rm: ReadMa, rs: ReadSl<Byte>) returns (up: ReadSl<Word>, down: ReadMa)
      modifies this`raddr, this`rdat
      ensures Reads() == CvtReadStep(old(Reads()), rm, rs)
      ensures up == ReadUp(old(Reads())) && down == ReadDown(old(Reads()))
    {
      down := ReadMa(raddr.addr, !rdat.full);
      up := ReadSl(!raddr.full, rdat.data, rdat.resp, rdat.valid, rdat.last);
      var lane := raddr.addr.addr;
      if rm.raddr.valid { lane := rm.raddr.addr; }
      raddr := LatchAddr(raddr, rm.raddr, rs.addrReady);
      if !rdat.full {
        if rs.valid { rdat := RdatReg(true, ToBus(rs.data, lane), rs.resp, true, rs.last); }
      } else {
        if rm.ready { rdat := RdatEmpty(); }
      }
    }

    method FsmWrite(wm: WriteMa<Word>, ws: WriteSl) returns (up: WriteSl, down: WriteMa<Byte>)
      requires |wm.data| == BUS
      modifies this`waddr, this`wdat, this`wres
      ensures Writes() == CvtWriteStep(old(Writes()), wm, ws)
      ensures up == WriteUp(old(Writes())) && down == WriteDown(old(Writes()))
    {
      down := WriteMa(waddr.addr, wdat.data, wdat.valid, wdat.last, !wres.full);
      up := WriteSl(!waddr.full, !wdat.full, wres.resp, wres.valid);
      var lane := waddr.addr.addr;
      if wm.waddr.valid { lane := wm.waddr.addr; }
      waddr := LatchAddr(waddr, wm.waddr, ws.addrReady);
      if !wdat.full {
        if wm.valid { wdat := WdatReg(true, FromBus(wm.data, lane), true, wm.last); }
      } else {
        if ws.datReady { wdat := WDAT_EMPTY; }
      }
      if !wres.full {
        if ws.resValid { wres := WresReg(true, ws.resp, true); }
      } else {
        if wm.resReady { wres := WRES_EMPTY; }
      }
    }

    static method LatchAddr(old': AddrReg, up: AddrMa, downReady: bool) returns (r: AddrReg)
      ensures r == AddrStep(old', up, downReady)
    {
      r := old';
      if !r.full {
        if up.valid { r := AddrReg(true, up); }
      } else {
        if downReady { r := AddrReg(false, r.addr.(valid := false)); }
      }
    }
  }
}
