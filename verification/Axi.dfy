/** The AXI4L channel bundle (io/RVProc_io.h, struct TCH), split into what the
    master end and the slave end drive on the read and on the write channels.
    Protection, burst-type, strobe and interrupt wires are not modelled. */
module Axi {
  datatype Option<+T> = None | Some(value: T)

  datatype Resp = Okay | SlvErr

  type Byte = x: nat | x < 256

  const BUS := 64 // bytes of the 512-bit data bus

  /** A word on the data bus, byte by byte. */
  type Word = seq<Byte>

  /** The slave, address and size of one device call. */
  datatype Site = Site(slave: nat, addr: nat, size: nat)

  /** A crossbar with its address map; `zero` is the data word that reset puts on a channel. */
  datatype Config<!D> = Config(decode: nat -> nat, masters: nat, slaves: nat, zero: D) {
    ghost predicate Valid() {
      masters > 0 && forall a :: decode(a) < slaves
    }
  }

  /** Read- or write-address channel, master end. */
  datatype AddrMa = AddrMa(addr: nat, size: nat, len: nat, valid: bool)

  /** Reset value: size is TRANSFER_SIZE_4. */
  const ADDR_RESET := AddrMa(0, 2, 0, false)

  /** Everything the master drives for reads: raddr.m and rdat.m. */
  datatype ReadMa = ReadMa(raddr: AddrMa, ready: bool)

  const READ_MA_RESET := ReadMa(ADDR_RESET, false)

  /** Everything the slave drives for reads: raddr.s and rdat.s. */
  datatype ReadSl<+D> = ReadSl(addrReady: bool, data: D, resp: Resp, valid: bool, last: bool)

  function ReadSlReset<D>(zero: D): ReadSl<D> {
    ReadSl(false, zero, Okay, false, false)
  }

  /** Everything the master drives for writes: waddr.m, wdat.m and wres.m. */
  datatype WriteMa<+D> = WriteMa(waddr: AddrMa, data: D, valid: bool, last: bool, resReady: bool)

  function WriteMaReset<D>(zero: D): WriteMa<D> {
    WriteMa(ADDR_RESET, zero, false, false, false)
  }

  /** Everything the slave drives for writes: waddr.s, wdat.s and wres.s. */
  datatype WriteSl = WriteSl(addrReady: bool, datReady: bool, resp: Resp, resValid: bool)

  const WRITE_SL_RESET := WriteSl(false, false, Okay, false)
}
