/** The scan sequences of M7JTAG (RVProcTest.cpp) against a TAP controller as in clause 6.1 of IEEE 1149.1,
    clocked the way JTAG::cycle (dut.cpp) clocks it: one rising edge, one falling edge, then TDO is sampled. */
module Jtag {
  import opened Arith

  type Bits = seq<bool>

  datatype TapState =
    | TestLogicReset | RunTestIdle
    | SelectDr | CaptureDr | ShiftDr | Exit1Dr | PauseDr | Exit2Dr | UpdateDr
    | SelectIr | CaptureIr | ShiftIr | Exit1Ir | PauseIr | Exit2Ir | UpdateIr

  function Next(s: TapState, tms: bool): TapState {
    match s
    case TestLogicReset => if tms then TestLogicReset else RunTestIdle
    case RunTestIdle => if tms then SelectDr else RunTestIdle
    case SelectDr => if tms then SelectIr else CaptureDr
    case CaptureDr => if tms then Exit1Dr else ShiftDr
    case ShiftDr => if tms then Exit1Dr else ShiftDr
    case Exit1Dr => if tms then UpdateDr else PauseDr
    case PauseDr => if tms then Exit2Dr else PauseDr
    case Exit2Dr => if tms then UpdateDr else ShiftDr
    case UpdateDr => if tms then SelectDr else RunTestIdle
    case SelectIr => if tms then TestLogicReset else CaptureIr
    case CaptureIr => if tms then Exit1Ir else ShiftIr
    case ShiftIr => if tms then Exit1Ir else ShiftIr
    case Exit1Ir => if tms then UpdateIr else PauseIr
    case PauseIr => if tms then Exit2Ir else PauseIr
    case Exit2Ir => if tms then UpdateIr else ShiftIr
    case UpdateIr => if tms then SelectDr else RunTestIdle
  }

  /** What the scan cannot know of the chip: the instruction register's capture and reset values, and what the data
      register selected by an instruction holds at a given TCK cycle (the core runs on during a scan). */
  datatype Chip = Chip(irCapture: Bits, irReset: Bits, dr: (Bits, nat) -> Bits) {
    ghost predicate Valid() {
      |irCapture| == 5 && |irReset| == 5 && forall ir: Bits, t: nat :: 0 < |dr(ir, t)|
    }
  }

  /** A data register write: the instruction it was made under and the word. */
  datatype Update = Update(ir: Bits, word: Bits)

  datatype Tap = Tap(state: TapState, shifter: Bits, ir: Bits, updates: seq<Update>, tck: nat) {
    ghost predicate Valid() { 0 < |shifter| }

    /** The TDO pin as the falling edge leaves it. */
    function Tdo(): bool
      requires Valid()
    {
      (state == ShiftIr || state == ShiftDr) ==> shifter[0]
    }
  }

  /** The shift register after the rising edge. */
  function Clocked(c: Chip, p: Tap, tdi: bool): (r: Bits)
    requires c.Valid() && p.Valid()
    ensures 0 < |r|
  {
    match p.state
    case CaptureIr => c.irCapture
    case CaptureDr => c.dr(p.ir, p.tck)
    case ShiftIr => p.shifter[1..] + [tdi]
    case ShiftDr => p.shifter[1..] + [tdi]
    case _ => p.shifter
  }

  /** One TCK cycle: the rising edge captures or shifts and moves the state, the falling edge updates. */
  function Cycle(c: Chip, p: Tap, tms: bool, tdi: bool): (r: Tap)
    requires c.Valid() && p.Valid()
    ensures r.Valid()
  {
    var s, next := Clocked(c, p, tdi), Next(p.state, tms);
    Tap(next, s,
        if next == UpdateIr then s else if next == TestLogicReset then c.irReset else p.ir,
        if next == UpdateDr then p.updates + [Update(p.ir, s)] else p.updates,
        p.tck + 1)
  }

  datatype Pins = Pins(tms: bool, tdi: bool)

  const HIGH := Pins(true, false)
  const LOW := Pins(false, false)

  /** A run of the TAP: the pins driven in each cycle, what TDO showed after it, and the states around the cycles. */
  datatype Run = Run(taps: seq<Tap>, pins: seq<Pins>, tdos: Bits)

  ghost predicate Took(c: Chip, r: Run, k: nat)
    requires c.Valid() && k < |r.pins| == |r.tdos| && |r.taps| == |r.pins| + 1
  {
    && r.taps[k].Valid()
    && r.taps[k + 1] == Cycle(c, r.taps[k], r.pins[k].tms, r.pins[k].tdi)
    && r.tdos[k] == r.taps[k + 1].Tdo()
  }

  /** r is a run of the TAP of chip c. */
  ghost predicate Runs(c: Chip, r: Run) {
    && c.Valid() && |r.pins| == |r.tdos| && |r.taps| == |r.pins| + 1
    && forall k :: 0 <= k < |r.pins| ==> Took(c, r, k)
  }

  /** From cycle k on, the run drives these pins. */
  ghost predicate Drives(r: Run, k: nat, pins: seq<Pins>) {
    k + |pins| <= |r.pins| && r.pins[k..k + |pins|] == pins
  }

  lemma Split(r: Run, k: nat, a: seq<Pins>, b: seq<Pins>)
    requires Drives(r, k, a + b)
    ensures Drives(r, k, a) && Drives(r, k + |a|, b)
  {
    assert r.pins[k..k + |a|] == (a + b)[..|a|] == a;
    assert r.pins[k + |a|..k + |a| + |b|] == (a + b)[|a|..] == b;
  }

  lemma CycleAt(c: Chip, r: Run, k: nat, x: Pins)
    requires Runs(c, r) && Drives(r, k, [x])
    ensures k + 1 < |r.taps| && r.taps[k].Valid() && r.taps[k + 1] == Cycle(c, r.taps[k], x.tms, x.tdi)
    ensures r.tdos[k] == r.taps[k + 1].Tdo()
  {
    assert Took(c, r, k);
    assert r.pins[k] == r.pins[k..k + 1][0];
  }

  /** r goes on from r0 with these pins. */
  ghost predicate Grew(r0: Run, r: Run, pins: seq<Pins>) {
    r.pins == r0.pins + pins && r0.taps <= r.taps && r0.tdos <= r.tdos
  }

  lemma GrewTwice(r0: Run, r1: Run, r2: Run, a: seq<Pins>, b: seq<Pins>)
    requires Grew(r0, r1, a) && Grew(r1, r2, b)
    ensures Grew(r0, r2, a + b)
  {
  }

  function Append(r: Run, x: Pins, q: Tap): Run
    requires q.Valid()
  {
    Run(r.taps + [q], r.pins + [x], r.tdos + [q.Tdo()])
  }

  lemma AppendRuns(c: Chip, r: Run, x: Pins)
    requires Runs(c, r) && r.taps[|r.pins|].Valid()
    ensures var a := Append(r, x, Cycle(c, r.taps[|r.pins|], x.tms, x.tdi));
            Runs(c, a) && Grew(r, a, [x])
  {
    var a := Append(r, x, Cycle(c, r.taps[|r.pins|], x.tms, x.tdi));
    forall k | 0 <= k < |a.pins| ensures Took(c, a, k) {
      assert k < |r.pins| ==> Took(c, r, k);
    }
  }

  // ---- words as bits, least significant first ----

  predicate Bit(n: nat, i: nat) {
    n / Pow2(i) % 2 == 1
  }

  function BitsOf(n: nat, len: nat): (r: Bits) {
    seq(len, i requires 0 <= i < len => Bit(n, i))
  }

  function Value(bits: Bits): nat
    decreases |bits|
  {
    if bits == [] then 0
    else
      var n := |bits| - 1;
      Value(bits[..n]) + if bits[n] then Pow2(n) else 0
  }

  lemma ValueOne(bits: Bits, b: bool)
    ensures Value(bits + [b]) == Value(bits) + if b then Pow2(|bits|) else 0
  {
    assert (bits + [b])[..|bits|] == bits;
  }

  lemma Halve(n: nat, i: nat)
    ensures n / Pow2(i) / 2 == n / Pow2(i + 1)
    ensures n % Pow2(i + 1) == n % Pow2(i) + if Bit(n, i) then Pow2(i) else 0
  {
    var d := Pow2(i);
    var q, r := n / d, n % d;
    assert n == d * q + r;
    var h, b := q / 2, q % 2;
    assert q == 2 * h + b;
    Dist(d, 2 * h, b);
    Assoc(d, 2, h);
    assert d * b == if b == 1 then d else 0;
    DivUnique(n, 2 * d, h, d * b + r);
  }

  lemma BitsOfOne(n: nat, len: nat)
    ensures BitsOf(n, len + 1) == BitsOf(n, len) + [Bit(n, len)]
  {
  }

  lemma ValueStep(n: nat, len: nat)
    requires Value(BitsOf(n, len)) == n % Pow2(len)
    ensures Value(BitsOf(n, len) + [Bit(n, len)]) == n % Pow2(len + 1)
  {
    Halve(n, len);
    ValueOne(BitsOf(n, len), Bit(n, len));
  }

  /** The low len bits of a word give it back modulo 2^len. */
  lemma {:induction false} ValueBits(n: nat, len: nat)
    ensures Value(BitsOf(n, len)) == n % Pow2(len)
  {
    if len == 0 {
    } else {
      ValueBits(n, len - 1);
      ValueStep(n, len - 1);
      BitsOfOne(n, len - 1);
    }
  }

  // ---- the sequences ----

  function Repeat(x: Pins, n: nat): (r: seq<Pins>)
    ensures |r| == n
  {
    if n == 0 then [] else Repeat(x, n - 1) + [x]
  }

  /** Shifting: TMS low, one bit on TDI each cycle. */
  function Shifts(bits: Bits): (r: seq<Pins>)
    ensures |r| == |bits|
  {
    seq(|bits|, i requires 0 <= i < |bits| => Pins(false, bits[i]))
  }

  /** Shifting in the low len bits of n. */
  function ShiftsOf(n: nat, len: nat): (r: seq<Pins>)
    ensures |r| == len
  {
    if len == 0 then [] else ShiftsOf(n, len - 1) + [Pins(false, Bit(n, len - 1))]
  }

  lemma {:induction false} ShiftsOfBits(n: nat, len: nat)
    ensures ShiftsOf(n, len) == Shifts(BitsOf(n, len))
  {
    if len == 0 {
    } else {
      ShiftsOfBits(n, len - 1);
    }
  }

  lemma {:induction false} ShiftsOfPrefix(n: nat, len: nat, i: nat)
    requires i <= len
    ensures ShiftsOf(n, len)[..i] == ShiftsOf(n, i)
  {
    if i == len {
    } else {
      ShiftsOfPrefix(n, len - 1, i);
    }
  }

  function TlrPins(): seq<Pins> {
    Repeat(HIGH, 5) + [LOW]
  }

  function WriteIrPins(ir: nat): seq<Pins> {
    [HIGH, HIGH, LOW, LOW, LOW] + ShiftsOf(ir, 4) + [Pins(true, Bit(ir, 4))]
  }

  /** The cycles of shift_dr up to the one that enters Shift-DR. */
  const ENTER_DR := [HIGH, HIGH, LOW, LOW]

  /** A length below one scans one bit, like a length of one. */
  function Scanned(len: nat): nat {
    if len == 0 then 1 else len
  }

  function ShiftDrPins(len: nat, din: nat, idle: nat): seq<Pins> {
    ENTER_DR + ShiftsOf(din, Scanned(len) - 1) + [HIGH, HIGH, LOW] + Repeat(LOW, idle)
  }

  /** JTAG of dut.cpp, with the run it has made so far. */
  class Port {
    const chip: Chip
    var tap: Tap
    ghost var run: Run

    ghost predicate Valid()
      reads this
    {
      Runs(chip, run) && tap.Valid() && run.taps[|run.pins|] == tap
    }

    constructor (chip: Chip, tap: Tap)
      requires chip.Valid() && tap.Valid()
      ensures Valid() && this.chip == chip && this.tap == tap && run.pins == []
    {
      this.chip, this.tap := chip, tap;
      run := Run([tap], [], []);
    }

    /** The two edges. */
    method Edges(tms: bool, tdi: bool)
      requires chip.Valid() && tap.Valid()
      modifies this`tap
      ensures tap == Cycle(chip, old(tap), tms, tdi)
    {
      var s := tap.shifter;
      match tap.state {
        case CaptureIr => s := chip.irCapture;
        case CaptureDr => s := chip.dr(tap.ir, tap.tck);
        case ShiftIr => s := s[1..] + [tdi];
        case ShiftDr => s := s[1..] + [tdi];
        case _ =>
      }
      tap := tap.(state := Next(tap.state, tms), shifter := s, tck := tap.tck + 1);
      if tap.state == UpdateIr {
        tap := tap.(ir := s);
      } else if tap.state == TestLogicReset {
        tap := tap.(ir := chip.irReset);
      } else if tap.state == UpdateDr {
        tap := tap.(updates := tap.updates + [Update(tap.ir, s)]);
      }
    }

    method Step(tms: bool, tdi: bool) returns (tdo: bool)
      requires Valid()
      modifies this
      ensures Valid() && Grew(old(run), run, [Pins(tms, tdi)]) && tdo == run.tdos[|old(run.pins)|]
    {
      AppendRuns(chip, run, Pins(tms, tdi));
      Edges(tms, tdi);
      tdo := tap.Tdo();
      run := Append(run, Pins(tms, tdi), tap);
    }
  }

  /** M7JTAG: idleCycles is idle_cycle_num. */
  class Driver {
    const port: Port
    var idleCycles: nat

    constructor (port: Port)
      ensures this.port == port && idleCycles == 7
    {
      this.port, idleCycles := port, 7;
    }

    method Tlr() returns (tdo: bool)
      requires port.Valid()
      modifies port
      ensures port.Valid() && Grew(old(port.run), port.run, TlrPins())
      ensures tdo && port.tap.state == RunTestIdle && port.tap.ir == port.chip.irReset
    {
      ghost var r0 := port.run;
      tdo := false;
      for i := 0 to 5
        invariant port.Valid() && Grew(r0, port.run, Repeat(HIGH, i))
      {
        ghost var r := port.run;
        tdo := port.Step(true, false);
        GrewTwice(r0, r, port.run, Repeat(HIGH, i), [HIGH]);
      }
      ghost var r := port.run;
      tdo := port.Step(false, false);
      GrewTwice(r0, r, port.run, Repeat(HIGH, 5), [LOW]);
      TlrReachesIdle(port.chip, port.run, |r0.pins|);
    }

    /** The three cycles that begin and end every scan. */
    method HighHighLow()
      requires port.Valid()
      modifies port
      ensures port.Valid() && Grew(old(port.run), port.run, [HIGH, HIGH, LOW])
    {
      var _ := port.Step(true, false);
      var _ := port.Step(true, false);
      var _ := port.Step(false, false);
    }

    method WriteIr(ir0: nat)
      requires port.Valid()
      modifies port
      ensures port.Valid() && Grew(old(port.run), port.run, WriteIrPins(ir0))
    {
      HighHighLow();
      var _ := port.Step(false, false);
      var _ := port.Step(false, false);
      var ir := WriteBits(ir0);
      var _ := port.Step(true, ir % 2 == 1);
    }

    /** The first four bits of the instruction; the rest of it is returned. */
    method WriteBits(ir0: nat) returns (ir: nat)
      requires port.Valid()
      modifies port
      ensures port.Valid() && Grew(old(port.run), port.run, ShiftsOf(ir0, 4)) && ir == ir0 / Pow2(4)
    {
      ghost var r0 := port.run;
      ir := ir0;
      for i := 0 to 4
        invariant port.Valid() && Grew(r0, port.run, ShiftsOf(ir0, i)) && ir == ir0 / Pow2(i)
      {
        ghost var r := port.run;
        var _ := port.Step(false, ir % 2 == 1);
        GrewTwice(r0, r, port.run, ShiftsOf(ir0, i), [Pins(false, Bit(ir0, i))]);
        Halve(ir0, i);
        ir := ir / 2;
      }
    }

    /** The result is the word of what TDO showed from the cycle that enters Shift-DR on. */
    method ShiftDr(len: nat, din: nat) returns (dout: nat)
      requires port.Valid() && len <= 64
      modifies port
      ensures port.Valid() && Grew(old(port.run), port.run, ShiftDrPins(len, din, idleCycles))
      ensures var k := |old(port.run.pins)| + 3; dout == Value(port.run.tdos[k..k + Scanned(len)])
    {
      var n := Scanned(len);
      ghost var k := |port.run.pins| + 3;
      HighHighLow();
      dout := ScanBits(n, din);
      ghost var tdos := port.run.tdos;
      HighHighLow();
      Idle();
      assert port.run.tdos[k..k + n] == tdos[k..];
    }

    method Idle()
      requires port.Valid()
      modifies port
      ensures port.Valid() && Grew(old(port.run), port.run, Repeat(LOW, idleCycles))
    {
      ghost var r0 := port.run;
      for i := 0 to idleCycles
        invariant port.Valid() && Grew(r0, port.run, Repeat(LOW, i))
      {
        ghost var r := port.run;
        var _ := port.Step(false, false);
        GrewTwice(r0, r, port.run, Repeat(LOW, i), [LOW]);
      }
    }

    /** The cycle that enters Shift-DR and the scan loop. */
    method ScanBits(len: nat, din: nat) returns (dout: nat)
      requires port.Valid() && 0 < len
      modifies port
      ensures port.Valid() && Grew(old(port.run), port.run, [LOW] + ShiftsOf(din, len - 1))
      ensures dout == Value(port.run.tdos[|old(port.run.pins)|..])
    {
      ghost var r0 := port.run;
      var tdo := port.Step(false, false);
      ScanFirst(r0, port.run, din, tdo);
      dout := if tdo then 1 else 0;
      for i := 1 to len
        invariant port.Valid() && ScannedTo(r0, port.run, din, i, dout)
      {
        ghost var r := port.run;
        tdo := port.Step(false, Bit(din, i - 1));
        ScanNext(r0, r, port.run, din, i, dout, tdo);
        dout := dout + if tdo then Pow2(i) else 0;
      }
    }

    /** dmi_scan: one access of the debug module interface, 44 bits under instruction 0x11. From Run-Test/Idle, with
        a 44-bit access register, the register as captured comes back and the request is delivered. */
    method DmiScan(op: Word32, addr: Word32, data: Word32) returns (dout: nat)
      requires port.Valid()
      modifies port
      ensures port.Valid() && Grew(old(port.run), port.run, DmiPins(op, addr, data, idleCycles))
      ensures var p, reg := old(port.tap), AccessRegister(port.chip, old(port.tap));
              p.state == RunTestIdle && |reg| == 44 ==>
                dout == Value(reg) && Delivered(p, port.tap, op, addr, data)
    {
      ghost var r0 := port.run;
      WriteIr(IR_DMI);
      ghost var r := port.run;
      dout := ShiftDr(44, Packed(op, addr, data));
      GrewTwice(r0, r, port.run, WriteIrPins(IR_DMI), ShiftDrPins(44, Packed(op, addr, data), idleCycles));
      if old(port.tap).state == RunTestIdle && |AccessRegister(port.chip, old(port.tap))| == 44 {
        DmiDelivery(port.chip, port.run, |r0.pins|, op, addr, data, idleCycles);
      }
    }
  }

  /** After i cycles of a scan: dout is the word of what TDO showed. */
  ghost predicate ScannedTo(r0: Run, r: Run, din: nat, i: nat, dout: nat)
    requires 0 < i
  {
    && |r0.pins| == |r0.tdos| && Grew(r0, r, [LOW] + ShiftsOf(din, i - 1)) && |r.tdos| == |r0.tdos| + i
    && dout == Value(r.tdos[|r0.pins|..])
  }

  lemma ScanFirst(r0: Run, r: Run, din: nat, tdo: bool)
    requires |r0.pins| == |r0.tdos| && Grew(r0, r, [LOW]) && |r.tdos| == |r.pins| && tdo == r.tdos[|r0.pins|]
    ensures ScannedTo(r0, r, din, 1, if tdo then 1 else 0)
  {
    ValueOne([], tdo);
    assert r.tdos[|r0.pins|..] == [] + [tdo];
    assert [LOW] + ShiftsOf(din, 0) == [LOW];
  }

  lemma ScanNext(r0: Run, r: Run, r': Run, din: nat, i: nat, dout: nat, tdo: bool)
    requires 0 < i && ScannedTo(r0, r, din, i, dout) && |r.pins| == |r.tdos| && |r'.tdos| == |r'.pins|
    requires Grew(r, r', [Pins(false, Bit(din, i - 1))]) && tdo == r'.tdos[|r.pins|]
    ensures ScannedTo(r0, r', din, i + 1, dout + if tdo then Pow2(i) else 0)
  {
    GrewTwice(r0, r, r', [LOW] + ShiftsOf(din, i - 1), [Pins(false, Bit(din, i - 1))]);
    NextShift(din, i);
    TailGrows(r.tdos, r'.tdos, |r0.pins|, tdo);
    ValueOne(r.tdos[|r0.pins|..], tdo);
  }

  lemma NextShift(din: nat, i: nat)
    requires 0 < i
    ensures [LOW] + ShiftsOf(din, i - 1) + [Pins(false, Bit(din, i - 1))] == [LOW] + ShiftsOf(din, i)
  {
  }

  lemma TailGrows(a: Bits, b: Bits, n: nat, tdo: bool)
    requires a <= b && |b| == |a| + 1 && n <= |a| && tdo == b[|a|]
    ensures b[n..] == a[n..] + [tdo]
  {
  }

  const IR_DMI := 0x11

  type Word32 = x: nat | x < 0x1_0000_0000

  /** Bitwise or of two n-bit words. */
  function Or(a: nat, b: nat, n: nat): (r: nat)
    requires a < Pow2(n) && b < Pow2(n)
    ensures r < Pow2(n) && (b == 0 ==> r == a)
  {
    if n == 0 then 0
    else 2 * Or(a / 2, b / 2, n - 1) + if a % 2 == 1 || b % 2 == 1 then 1 else 0
  }

  /** The data field of a request: the data, with the upper bits of an operation above 3 or-ed into it. */
  function DataField(op: Word32, data: Word32): Word32 {
    Pow32();
    Or(data, op / 4, 32)
  }

  lemma Pow32()
    ensures Pow2(32) == 0x1_0000_0000
  {
    assert Pow2(10) == 1024;
    assert Pow2(20) == 1024 * 1024;
    assert Pow2(30) == 1024 * 1024 * 1024;
  }

  /** The request word: the address from bit 34 (truncated to 64 bits), or-ed with the data from bit 2 and the
      operation from bit 0; only the last two overlap. */
  function Packed(op: Word32, addr: nat, data: Word32): nat {
    addr * 0x4_0000_0000 % M64 + DataField(op, data) * 4 + op % 4
  }

  function DmiPins(op: Word32, addr: nat, data: Word32, idle: nat): seq<Pins> {
    WriteIrPins(IR_DMI) + ShiftDrPins(44, Packed(op, addr, data), idle)
  }

  // ---- what the TAP does under them ----

  /** tlr reaches Run-Test/Idle from any state, with the reset instruction selected. */
  lemma TlrReachesIdle(c: Chip, r: Run, k: nat)
    requires Runs(c, r) && Drives(r, k, TlrPins())
    ensures r.taps[k + 6].state == RunTestIdle && r.taps[k + 6].ir == c.irReset && r.tdos[k + 5]
  {
    Split(r, k, Repeat(HIGH, 5), [LOW]);
    FiveHigh(c, r, k);
    CycleAt(c, r, k + 5, LOW);
  }

  lemma FiveHigh(c: Chip, r: Run, k: nat)
    requires Runs(c, r) && Drives(r, k, Repeat(HIGH, 5))
    ensures r.taps[k + 5].state == TestLogicReset && r.taps[k + 5].ir == c.irReset
  {
    HighAt(r, k, 5, 0);
    HighAt(r, k, 5, 1);
    HighAt(r, k, 5, 2);
    HighAt(r, k, 5, 3);
    HighAt(r, k, 5, 4);
    Rise(c, r, k);
    Rise(c, r, k + 1);
    Rise(c, r, k + 2);
    Rise(c, r, k + 3);
    Rise(c, r, k + 4);
    FiveRises(r.taps[k].state);
  }

  lemma {:induction false} HighAt(r: Run, k: nat, n: nat, i: nat)
    requires Drives(r, k, Repeat(HIGH, n)) && i < n
    ensures Drives(r, k + i, [HIGH])
    decreases n
  {
    Split(r, k, Repeat(HIGH, n - 1), [HIGH]);
    if i == n - 1 {
    } else {
      HighAt(r, k, n - 1, i);
    }
  }

  lemma Rise(c: Chip, r: Run, k: nat)
    requires Runs(c, r) && Drives(r, k, [HIGH])
    ensures r.taps[k + 1].state == Next(r.taps[k].state, true)
    ensures r.taps[k + 1].state == TestLogicReset ==> r.taps[k + 1].ir == c.irReset
  {
    CycleAt(c, r, k, HIGH);
  }

  lemma FiveRises(s: TapState)
    ensures Next(Next(Next(Next(Next(s, true), true), true), true), true) == TestLogicReset
  {
  }

  predicate Shifting(p: Tap) {
    p.state == ShiftIr || p.state == ShiftDr
  }

  lemma ShiftAt(c: Chip, r: Run, k: nat, b: bool)
    requires Runs(c, r) && Drives(r, k, [Pins(false, b)]) && r.taps[k].Valid() && Shifting(r.taps[k])
    ensures r.taps[k + 1] == r.taps[k].(shifter := r.taps[k].shifter[1..] + [b], tck := r.taps[k].tck + 1)
  {
    CycleAt(c, r, k, Pins(false, b));
  }

  lemma Slide(s: Bits, bits: Bits, b: bool)
    requires 0 < |s|
    ensures (s + bits)[|bits|..][1..] + [b] == (s + (bits + [b]))[|bits| + 1..]
  {
  }

  /** In a shift state the bits go through the register in order. */
  lemma {:induction false} ShiftsThrough(c: Chip, r: Run, k: nat, bits: Bits)
    requires Runs(c, r) && Drives(r, k, Shifts(bits)) && r.taps[k].Valid() && Shifting(r.taps[k])
    ensures var p := r.taps[k];
            r.taps[k + |bits|] == p.(shifter := (p.shifter + bits)[|bits|..], tck := p.tck + |bits|)
    decreases |bits|
  {
    var p := r.taps[k];
    if bits == [] {
      assert p.shifter + bits == p.shifter;
    } else {
      var n := |bits| - 1;
      var rest, b := bits[..n], bits[n];
      assert bits == rest + [b];
      assert Shifts(bits) == Shifts(rest) + [Pins(false, b)];
      Split(r, k, Shifts(rest), [Pins(false, b)]);
      ShiftsThrough(c, r, k, rest);
      ShiftAt(c, r, k + n, b);
      Slide(p.shifter, rest, b);
    }
  }

  lemma TwoCycles(c: Chip, r: Run, k: nat, x: Pins, y: Pins)
    requires Runs(c, r) && Drives(r, k, [x, y])
    ensures k + 2 < |r.taps| && r.taps[k].Valid()
    ensures r.taps[k + 2] == Cycle(c, Cycle(c, r.taps[k], x.tms, x.tdi), y.tms, y.tdi)
  {
    assert [x, y] == [x] + [y];
    Split(r, k, [x], [y]);
    CycleAt(c, r, k, x);
    CycleAt(c, r, k + 1, y);
  }

  /** The first four cycles of write_ir. */
  lemma EnterIr(c: Chip, r: Run, k: nat)
    requires Runs(c, r) && Drives(r, k, [HIGH, HIGH] + [LOW, LOW]) && r.taps[k].state == RunTestIdle
    ensures r.taps[k + 4].Valid()
    ensures r.taps[k + 4] == r.taps[k].(state := ShiftIr, shifter := c.irCapture, tck := r.taps[k].tck + 4)
  {
    Split(r, k, [HIGH, HIGH], [LOW, LOW]);
    TwoCycles(c, r, k, HIGH, HIGH);
    TwoCycles(c, r, k + 2, LOW, LOW);
  }

  /** From Run-Test/Idle, write_ir leaves the five low bits of ir in the instruction shift register, nothing updated
      yet: the wash bit and the captured value have been shifted out. */
  lemma WriteIrShifts(c: Chip, r: Run, k: nat, ir: nat)
    requires Runs(c, r) && Drives(r, k, WriteIrPins(ir)) && r.taps[k].state == RunTestIdle
    ensures r.taps[k + 10] == r.taps[k].(state := Exit1Ir, shifter := BitsOf(ir, 5), tck := r.taps[k].tck + 10)
  {
    var head := [HIGH, HIGH] + [LOW, LOW];
    var bits := [false] + BitsOf(ir, 4);
    var last := Pins(true, Bit(ir, 4));
    WriteIrShape(ir);
    Split(r, k, head + Shifts(bits), [last]);
    Split(r, k, head, Shifts(bits));
    EnterIr(c, r, k);
    ShiftsThrough(c, r, k + 4, bits);
    CycleAt(c, r, k + 9, last);
    Washed(c.irCapture, ir);
  }

  lemma WriteIrShape(ir: nat)
    ensures WriteIrPins(ir) ==
            [HIGH, HIGH] + [LOW, LOW] + Shifts([false] + BitsOf(ir, 4)) + [Pins(true, Bit(ir, 4))]
  {
    ShiftsOfBits(ir, 4);
    assert Shifts([false] + BitsOf(ir, 4)) == [LOW] + Shifts(BitsOf(ir, 4));
  }

  lemma Washed(s: Bits, ir: nat)
    requires |s| == 5
    ensures (s + ([false] + BitsOf(ir, 4)))[5..][1..] + [Bit(ir, 4)] == BitsOf(ir, 5)
  {
  }

  /** The register as it is captured in a scan that starts in Exit1-IR. */
  ghost function Captured(c: Chip, p: Tap): (r: Bits)
    requires c.Valid()
    ensures 0 < |r|
  {
    c.dr(p.shifter, p.tck + 3)
  }

  /** The state that enters Shift-DR. */
  ghost function Entry(c: Chip, p: Tap): (q: Tap)
    requires c.Valid()
    ensures q.Valid()
  {
    p.(state := ShiftDr, shifter := Captured(c, p), ir := p.shifter, tck := p.tck + 4)
  }

  lemma EnterDr(c: Chip, r: Run, k: nat)
    requires Runs(c, r) && Drives(r, k, ENTER_DR) && r.taps[k].state == Exit1Ir
    ensures r.taps[k + 4] == Entry(c, r.taps[k])
  {
    assert ENTER_DR == [HIGH, HIGH] + [LOW, LOW];
    Split(r, k, [HIGH, HIGH], [LOW, LOW]);
    TwoCycles(c, r, k, HIGH, HIGH);
    assert r.taps[k + 2] == r.taps[k].(state := SelectDr, ir := r.taps[k].shifter, tck := r.taps[k].tck + 2);
    TwoCycles(c, r, k + 2, LOW, LOW);
  }

  /** The last three cycles of shift_dr. */
  lemma LeaveDr(c: Chip, r: Run, k: nat)
    requires Runs(c, r) && Drives(r, k, [HIGH, HIGH, LOW]) && r.taps[k].Valid() && r.taps[k].state == ShiftDr
    ensures var p, s := r.taps[k], r.taps[k].shifter[1..] + [false];
            r.taps[k + 3] ==
            p.(state := RunTestIdle, shifter := s, updates := p.updates + [Update(p.ir, s)], tck := p.tck + 3)
  {
    assert [HIGH, HIGH, LOW] == [HIGH, HIGH] + [LOW];
    Split(r, k, [HIGH, HIGH], [LOW]);
    TwoCycles(c, r, k, HIGH, HIGH);
    CycleAt(c, r, k + 2, LOW);
  }

  lemma {:induction false} Idles(c: Chip, r: Run, k: nat, n: nat)
    requires Runs(c, r) && Drives(r, k, Repeat(LOW, n)) && r.taps[k].state == RunTestIdle
    ensures r.taps[k + n] == r.taps[k].(tck := r.taps[k].tck + n)
  {
    if n == 0 {
    } else {
      Split(r, k, Repeat(LOW, n - 1), [LOW]);
      Idles(c, r, k, n - 1);
      CycleAt(c, r, k + n - 1, LOW);
    }
  }

  /** What goes in behind the captured bits: all of din but its top bit, and a zero. */
  function Entered(din: nat, n: nat): Bits
    requires 0 < n
  {
    BitsOf(din, n - 1) + [false]
  }

  /** The state after i bits have been shifted in. */
  lemma Scanning(c: Chip, r: Run, k: nat, len: nat, din: nat, idle: nat, i: nat)
    requires Runs(c, r) && Drives(r, k, ShiftDrPins(len, din, idle)) && r.taps[k].state == Exit1Ir && i < Scanned(len)
    ensures var p, q := r.taps[k], Entry(c, r.taps[k]);
            r.taps[k + 4 + i] == q.(shifter := (q.shifter + BitsOf(din, i))[i..], tck := q.tck + i)
  {
    var rest := ShiftDrPins(len, din, idle)[4 + i..];
    ShiftDrShape(len, din, idle, i);
    Split(r, k, ENTER_DR + Shifts(BitsOf(din, i)), rest);
    Split(r, k, ENTER_DR, Shifts(BitsOf(din, i)));
    EnterDr(c, r, k);
    ShiftsThrough(c, r, k + 4, BitsOf(din, i));
  }

  lemma ShiftDrShape(len: nat, din: nat, idle: nat, i: nat)
    requires i < Scanned(len)
    ensures var pins := ShiftDrPins(len, din, idle);
            4 + i <= |pins| && pins == ENTER_DR + Shifts(BitsOf(din, i)) + pins[4 + i..]
  {
    ShiftsOfPrefix(din, Scanned(len) - 1, i);
    ShiftsOfBits(din, i);
  }

  /** shift_dr from Exit1-IR on a register of any width: the pending instruction takes effect, one register write
      happens, of what is left in the register after the scanned bits went in behind the captured ones, and the
      TAP ends in Run-Test/Idle. */
  lemma ShiftDrUpdates(c: Chip, r: Run, k: nat, len: nat, din: nat, idle: nat)
    requires Runs(c, r) && Drives(r, k, ShiftDrPins(len, din, idle)) && r.taps[k].state == Exit1Ir
    ensures var p, n := r.taps[k], Scanned(len);
            var q := r.taps[k + 6 + n + idle];
            && q.state == RunTestIdle && q.ir == p.shifter
            && q.updates == p.updates + [Update(p.shifter, (Captured(c, p) + Entered(din, n))[n..])]
  {
    var n := Scanned(len);
    var head, tail := ENTER_DR + ShiftsOf(din, n - 1), [HIGH, HIGH, LOW];
    Scanning(c, r, k, len, din, idle, n - 1);
    Split(r, k, head + tail, Repeat(LOW, idle));
    Split(r, k, head, tail);
    LeaveDr(c, r, k + 3 + n);
    Slide(Captured(c, r.taps[k]), BitsOf(din, n - 1), false);
    Idles(c, r, k + 6 + n, idle);
  }

  /** The bits shift_dr reads: the captured register from its low end, then, past its width, the bits sent in. */
  lemma ShiftDrReads(c: Chip, r: Run, k: nat, len: nat, din: nat, idle: nat)
    requires Runs(c, r) && Drives(r, k, ShiftDrPins(len, din, idle)) && r.taps[k].state == Exit1Ir
    ensures var n := Scanned(len);
            r.tdos[k + 3..k + 3 + n] == (Captured(c, r.taps[k]) + Entered(din, n))[..n]
  {
    var n := Scanned(len);
    var all := Captured(c, r.taps[k]) + Entered(din, n);
    forall i | 0 <= i < n ensures r.tdos[k + 3..k + 3 + n][i] == all[..n][i] {
      OutShown(c, r, k, len, din, idle, i);
    }
  }

  lemma OutShown(c: Chip, r: Run, k: nat, len: nat, din: nat, idle: nat, i: nat)
    requires Runs(c, r) && Drives(r, k, ShiftDrPins(len, din, idle)) && r.taps[k].state == Exit1Ir && i < Scanned(len)
    ensures r.tdos[k + 3 + i] == (Captured(c, r.taps[k]) + Entered(din, Scanned(len)))[i]
  {
    Scanning(c, r, k, len, din, idle, i);
    assert Took(c, r, k + 3 + i);
  }

  /** A register access from Run-Test/Idle, on a register as wide as the scan: ir (its five low bits) is selected, the
      captured register comes back bit for bit, and exactly one write is made, of all of din but its top bit. */
  lemma Access(c: Chip, r: Run, k: nat, ir: nat, len: nat, din: nat, idle: nat)
    requires Runs(c, r) && Drives(r, k, WriteIrPins(ir) + ShiftDrPins(len, din, idle))
    requires r.taps[k].state == RunTestIdle && 0 < len == |c.dr(BitsOf(ir, 5), r.taps[k].tck + 13)|
    ensures var p, q := r.taps[k], r.taps[k + 16 + len + idle];
            && q.state == RunTestIdle && q.ir == BitsOf(ir, 5)
            && r.tdos[k + 13..k + 13 + len] == c.dr(BitsOf(ir, 5), p.tck + 13)
            && q.updates == p.updates + [Update(BitsOf(ir, 5), Entered(din, len))]
  {
    Split(r, k, WriteIrPins(ir), ShiftDrPins(len, din, idle));
    WriteIrShifts(c, r, k, ir);
    ShiftDrUpdates(c, r, k + 10, len, din, idle);
    ShiftDrReads(c, r, k + 10, len, din, idle);
    var cap, ins := Captured(c, r.taps[k + 10]), Entered(din, len);
    assert (cap + ins)[..len] == cap;
    assert (cap + ins)[len..] == ins;
  }

  /** Such an access loads din if and only if the top bit of din is zero. */
  lemma ScanRoundTrip(c: Chip, r: Run, k: nat, ir: nat, len: nat, din: nat, idle: nat)
    requires Runs(c, r) && Drives(r, k, WriteIrPins(ir) + ShiftDrPins(len, din, idle))
    requires r.taps[k].state == RunTestIdle && 0 < len == |c.dr(BitsOf(ir, 5), r.taps[k].tck + 13)|
    ensures var p, q := r.taps[k], r.taps[k + 16 + len + idle];
            && q.state == RunTestIdle && q.ir == BitsOf(ir, 5)
            && r.tdos[k + 13..k + 13 + len] == c.dr(BitsOf(ir, 5), p.tck + 13)
            && (q.updates == p.updates + [Update(BitsOf(ir, 5), BitsOf(din, len))] <==> !Bit(din, len - 1))
  {
    Access(c, r, k, ir, len, din, idle);
    var p, q := r.taps[k], r.taps[k + 16 + len + idle];
    var word, want := Entered(din, len), BitsOf(din, len);
    EnteredWhole(din, len);
    assert q.updates[|p.updates|].word == word;
    assert (p.updates + [Update(BitsOf(ir, 5), want)])[|p.updates|].word == want;
  }

  lemma EnteredWhole(din: nat, n: nat)
    requires 0 < n
    ensures Entered(din, n) == BitsOf(din, n) <==> !Bit(din, n - 1)
  {
    var low, b := BitsOf(din, n - 1), Bit(din, n - 1);
    assert BitsOf(din, n) == low + [b];
    assert (low + [b])[n - 1] == b;
  }

  lemma EnteredLow(din: nat, n: nat)
    requires 0 < n
    ensures Value(Entered(din, n)) == din % Pow2(n - 1)
  {
    ValueOne(BitsOf(din, n - 1), false);
    ValueBits(din, n - 1);
  }

  /** The fields a debug module reads from the word written into its 44-bit access register. */
  datatype Request = Request(op: nat, addr: nat, data: nat)

  function Fields(word: Bits): Request {
    var w := Value(word);
    Request(w % 4, w / 0x4_0000_0000, w / 4 % 0x1_0000_0000)
  }

  /** What arrives of a request: its operation modulo 4, its address modulo 512 (the register has ten address bits, and
      the last one is always scanned as zero), and its data, or-ed bit by bit with the rest of the operation. */
  ghost predicate Arrives(f: Request, op: nat, addr: nat, data: nat) {
    && f.op == op % 4 && f.addr == addr % 512 && f.data < 0x1_0000_0000
    && forall i :: 0 <= i < 32 ==> (Bit(f.data, i) <==> Bit(data, i) || Bit(op, i + 2))
  }

  /** Between p and q one request was written, under instruction 10001. */
  ghost predicate Delivered(p: Tap, q: Tap, op: Word32, addr: nat, data: Word32) {
    var n := |p.updates|;
    && q.state == RunTestIdle
    && |q.updates| == n + 1 && q.updates[..n] == p.updates
    && q.updates[n].ir == [true, false, false, false, true]
    && Arrives(Fields(q.updates[n].word), op, addr, data)
  }

  /** The access register as a scan from p captures it. */
  ghost function AccessRegister(c: Chip, p: Tap): Bits
    requires c.Valid()
  {
    c.dr(BitsOf(IR_DMI, 5), p.tck + 13)
  }

  /** dmi_scan reads the access register and delivers its request, intact exactly when op < 4 and addr < 512. */
  lemma DmiDelivery(c: Chip, r: Run, k: nat, op: Word32, addr: nat, data: Word32, idle: nat)
    requires Runs(c, r) && Drives(r, k, DmiPins(op, addr, data, idle)) && r.taps[k].state == RunTestIdle
    requires |AccessRegister(c, r.taps[k])| == 44
    ensures r.tdos[k + 13..k + 57] == AccessRegister(c, r.taps[k])
    ensures var p, q := r.taps[k], r.taps[k + 60 + idle];
            && Delivered(p, q, op, addr, data)
            && (Fields(q.updates[|p.updates|].word) == Request(op, addr, data) <==> op < 4 && addr < 512)
  {
    Access(c, r, k, IR_DMI, 44, Packed(op, addr, data), idle);
    DmiWord(op, addr, data);
    DmiInstruction();
  }

  lemma DmiInstruction()
    ensures BitsOf(IR_DMI, 5) == [true, false, false, false, true]
  {
    SmallPowers();
  }

  lemma SmallPowers()
    ensures Pow2(0) == 1 && Pow2(1) == 2 && Pow2(2) == 4 && Pow2(3) == 8 && Pow2(4) == 16
  {
    assert Pow2(2) == 2 * Pow2(1) && Pow2(4) == 2 * Pow2(3);
  }

  lemma {:induction false} BitOfHalf(n: nat, i: nat)
    ensures n / 2 / Pow2(i) == n / Pow2(i + 1)
  {
    if i == 0 {
    } else {
      BitOfHalf(n, i - 1);
      Halve(n / 2, i - 1);
      Halve(n, i);
    }
  }

  lemma BitDown(n: nat, i: nat)
    ensures Bit(n, i + 1) <==> Bit(n / 2, i)
    ensures Bit(n, 0) <==> n % 2 == 1
  {
    BitOfHalf(n, i);
  }

  lemma OrSplits(a: nat, b: nat, n: nat)
    requires a < Pow2(n + 1) && b < Pow2(n + 1)
    ensures a / 2 < Pow2(n) && b / 2 < Pow2(n)
    ensures Or(a, b, n + 1) / 2 == Or(a / 2, b / 2, n)
    ensures Or(a, b, n + 1) % 2 == 1 <==> a % 2 == 1 || b % 2 == 1
  {
  }

  lemma {:induction false} OrBit(a: nat, b: nat, n: nat, i: nat)
    requires a < Pow2(n) && b < Pow2(n) && i < n
    ensures Bit(Or(a, b, n), i) <==> Bit(a, i) || Bit(b, i)
  {
    OrSplits(a, b, n - 1);
    var k := if i == 0 then 0 else i - 1;
    BitDown(a, k);
    BitDown(b, k);
    BitDown(Or(a, b, n), k);
    if i > 0 { OrBit(a / 2, b / 2, n - 1, k); }
  }

  lemma DataFieldBit(op: Word32, data: Word32, i: nat)
    requires i < 32
    ensures Bit(DataField(op, data), i) <==> Bit(data, i) || Bit(op, i + 2)
  {
    Pow32();
    OrBit(data, op / 4, 32, i);
    BitDown(op / 2, i);
    BitDown(op, i + 1);
  }

  lemma DmiWord(op: Word32, addr: nat, data: Word32)
    ensures
      var fields := Fields(Entered(Packed(op, addr, data), 44));
      && Arrives(fields, op, addr, data)
      && (fields == Request(op, addr, data) <==> op < 4 && addr < 512)
  {
    PackedFields(op % 4, addr, DataField(op, data), Packed(op, addr, data));
    forall i | 0 <= i < 32 ensures Bit(DataField(op, data), i) <==> Bit(data, i) || Bit(op, i + 2) {
      DataFieldBit(op, data, i);
    }
    Intact(op, addr, data);
  }

  lemma Intact(op: Word32, addr: nat, data: Word32)
    ensures Request(op % 4, addr % 512, DataField(op, data)) == Request(op, addr, data) <==> op < 4 && addr < 512
  {
    assert op < 4 ==> op / 4 == 0;
  }

  lemma PackedFields(o: nat, addr: nat, d: nat, din: nat)
    requires o < 4 && d < 0x1_0000_0000 && din == addr * 0x4_0000_0000 % M64 + d * 4 + o
    ensures Fields(Entered(din, 44)) == Request(o, addr % 512, d)
  {
    EnteredLow(din, 44);
    Pow43();
    PackedLow(o, addr, d, din);
    var w := Value(Entered(din, 44));
    DivUnique(w, 0x4_0000_0000, addr % 512, d * 4 + o);
    DivUnique(w, 4, addr % 512 * 0x1_0000_0000 + d, o);
    DivUnique(w / 4, 0x1_0000_0000, addr % 512, d);
  }

  lemma Pow43()
    ensures Pow2(43) == 0x800_0000_0000
  {
    assert Pow2(10) == 1024;
    assert Pow2(20) == 1024 * 1024;
    assert Pow2(30) == 1024 * 1024 * 1024;
    assert Pow2(40) == 1024 * 1024 * 1024 * 1024;
  }

  lemma PackedLow(o: nat, addr: nat, d: nat, din: nat)
    requires o < 4 && d < 0x1_0000_0000 && din == addr * 0x4_0000_0000 % M64 + d * 4 + o
    ensures din % 0x800_0000_0000 == addr % 512 * 0x4_0000_0000 + d * 4 + o
  {
    var q, r := addr / 512, addr % 512;
    var h, l := q / 0x20_0000, q % 0x20_0000;
    DivUnique(addr * 0x4_0000_0000, M64, h, l * 0x800_0000_0000 + r * 0x4_0000_0000);
    DivUnique(din, 0x800_0000_0000, l, r * 0x4_0000_0000 + d * 4 + o);
  }
}
