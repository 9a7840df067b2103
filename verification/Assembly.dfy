/** The classification of instructions by the golden fetch model (m1_iss.h) against an assembler for the control
    transfers of the RISC-V Unprivileged ISA, version 20191213 (sections 2.5, 16.4 and 16.8), and the two address
    rules of the walk against their descriptions. */
module Assembly {
  import opened Arith
  import opened Immediates
  import opened Iss

  type Reg = bv5

  /** The 32-bit control transfers. Offsets are 64-bit two's complement. */
  datatype Inst =
    | Br(funct: bv3, rs1: Reg, rs2: Reg, off: bv64)
    | Jal(rd: Reg, off: bv64)
    | Jalr(rd: Reg, rs1: Reg, funct: bv3, imm: bv12)
  {
    predicate Valid() {
      match this
      case Br(_, _, _, off) => RangeB(off)
      case Jal(_, off) => RangeJ(off)
      case Jalr(_, _, _, _) => true
    }
  }

  function RestB(f: bv3, rs1: Reg, rs2: Reg): bv32 {
    ((rs2 as bv32) << 20) | ((rs1 as bv32) << 15) | ((f as bv32) << 12) | 0x63
  }

  function RestJ(rd: Reg): bv32 {
    ((rd as bv32) << 7) | 0x6F
  }

  function Assemble(i: Inst): bv32 {
    match i
    case Br(f, rs1, rs2, off) => EncodeB(off) | (RestB(f, rs1, rs2) & !MASK_B)
    case Jal(rd, off) => EncodeJ(off) | (RestJ(rd) & !MASK_J)
    case Jalr(rd, rs1, f, imm) =>
      ((imm as bv32) << 20) | ((rs1 as bv32) << 15) | ((f as bv32) << 12) | ((rd as bv32) << 7) | 0x67
  }

  /** What the walk must make of an instruction: jumps that link through x1 are calls, and a jalr through x1 that does
      not link through x1 as well is a return. */
  function Meaning(i: Inst): Kind {
    match i
    case Br(_, _, _, off) => Branch(off as nat)
    case Jal(rd, off) => Jump(rd == 1, off as nat)
    case Jalr(rd, rs1, _, _) => Indirect(rd == 1, rs1 == 1 && rd != 1)
  }

  lemma OpcodeB(off: bv64, rest: bv32)
    ensures (EncodeB(off) | (rest & !MASK_B)) & 0x7F == rest & 0x7F
  {
  }

  lemma OpcodeJ(off: bv64, rest: bv32)
    ensures (EncodeJ(off) | (rest & !MASK_J)) & 0xFFF == rest & 0xFFF
  {
  }

  lemma FieldsOfJal(rd: Reg)
    ensures RestJ(rd) & 0x7F == 0x6F && ((RestJ(rd) >> 7) & 0x1F == 1 <==> rd == 1)
  {
  }

  lemma FieldsOfJalr(rd: Reg, rs1: Reg, f: bv3, imm: bv12)
    ensures
      var w := Assemble(Jalr(rd, rs1, f, imm));
      w & 0x7F == 0x67 && (w >> 7) & 0x1F == rd as bv32 && (w >> 15) & 0x1F == rs1 as bv32
  {
  }

  lemma LowFields(w: bv32, v: bv32)
    requires w & 0xFFF == v & 0xFFF
    ensures w & 0x7F == v & 0x7F && (w >> 7) & 0x1F == (v >> 7) & 0x1F
  {
  }

  lemma FieldsOfWord(rd: Reg, off: bv64)
    ensures
      var w := Assemble(Jal(rd, off));
      w & 0x7F == 0x6F && ((w >> 7) & 0x1F == 1 <==> rd == 1)
  {
    OpcodeJ(off, RestJ(rd));
    FieldsOfJal(rd);
    LowFields(Assemble(Jal(rd, off)), RestJ(rd));
  }

  lemma KindOfJal(rd: Reg, off: bv64)
    requires RangeJ(off)
    ensures Kind32(Assemble(Jal(rd, off))) == Jump(rd == 1, off as nat)
  {
    DecodeEncodeJ(off, RestJ(rd));
    FieldsOfWord(rd, off);
    JalKind(Assemble(Jal(rd, off)), off);
  }

  lemma JalKind(w: bv32, off: bv64)
    requires w & 0x7F == 0x6F && ImmJ(w) == off
    ensures Kind32(w) == Jump((w >> 7) & 0x1F == 1, off as nat)
  {
  }

  lemma KindOfBr(f: bv3, rs1: Reg, rs2: Reg, off: bv64)
    requires RangeB(off)
    ensures Kind32(Assemble(Br(f, rs1, rs2, off))) == Branch(off as nat)
  {
    DecodeEncodeB(off, RestB(f, rs1, rs2));
    OpcodeB(off, RestB(f, rs1, rs2));
    assert RestB(f, rs1, rs2) & 0x7F == 0x63;
  }

  /** The walk gives every assembled control transfer its meaning ... */
  lemma ClassifiesTransfers(i: Inst)
    requires i.Valid()
    ensures Kind32(Assemble(i)) == Meaning(i)
  {
    match i
    case Br(f, rs1, rs2, off) => KindOfBr(f, rs1, rs2, off);
    case Jal(rd, off) => KindOfJal(rd, off);
    case Jalr(rd, rs1, f, imm) => FieldsOfJalr(rd, rs1, f, imm);
  }

  /** The instruction that assembles to w, for a word with a control transfer opcode. */
  function Disassemble(w: bv32): Inst {
    var rd, rs1, rs2 := ((w >> 7) & 0x1F) as Reg, ((w >> 15) & 0x1F) as Reg, ((w >> 20) & 0x1F) as Reg;
    var f := ((w >> 12) & 0x7) as bv3;
    if w & 0x7F == 0x63 then Br(f, rs1, rs2, ImmB(w))
    else if w & 0x7F == 0x6F then Jal(rd, ImmJ(w))
    else Jalr(rd, rs1, f, ((w >> 20) & 0xFFF) as bv12)
  }

  lemma RestOfB(w: bv32)
    requires w & 0x7F == 0x63
    ensures RestB(((w >> 12) & 0x7) as bv3, ((w >> 15) & 0x1F) as Reg, ((w >> 20) & 0x1F) as Reg) == w & !MASK_B
  {
  }

  lemma RestOfJ(w: bv32)
    requires w & 0x7F == 0x6F
    ensures RestJ(((w >> 7) & 0x1F) as Reg) == w & !MASK_J
  {
  }

  lemma Reunite(w: bv32, m: bv32, a: bv32, b: bv32)
    requires a == w & m && b == w & !m
    ensures a | (b & !m) == w
  {
  }

  lemma WholeJalr(w: bv32)
    requires w & 0x7F == 0x67
    ensures
      ((((w >> 20) & 0xFFF) as bv12) as bv32 << 20) | ((((w >> 15) & 0x1F) as Reg) as bv32 << 15) |
      ((((w >> 12) & 0x7) as bv3) as bv32 << 12) | ((((w >> 7) & 0x1F) as Reg) as bv32 << 7) | 0x67 == w
  {
  }

  lemma RejoinB(w: bv32, f: bv3, rs1: Reg, rs2: Reg, off: bv64)
    requires EncodeB(off) == w & MASK_B && RestB(f, rs1, rs2) == w & !MASK_B
    ensures Assemble(Br(f, rs1, rs2, off)) == w
  {
    Reunite(w, MASK_B, EncodeB(off), RestB(f, rs1, rs2));
  }

  lemma RejoinJ(w: bv32, rd: Reg, off: bv64)
    requires EncodeJ(off) == w & MASK_J && RestJ(rd) == w & !MASK_J
    ensures Assemble(Jal(rd, off)) == w
  {
    Reunite(w, MASK_J, EncodeJ(off), RestJ(rd));
  }

  lemma ReassembleBr(w: bv32)
    requires w & 0x7F == 0x63
    ensures Disassemble(w).Valid() && Assemble(Disassemble(w)) == w
  {
    EncodeDecodeB(w);
    RestOfB(w);
    RejoinB(w, ((w >> 12) & 0x7) as bv3, ((w >> 15) & 0x1F) as Reg, ((w >> 20) & 0x1F) as Reg, ImmB(w));
  }

  lemma ReassembleJal(w: bv32)
    requires w & 0x7F == 0x6F
    ensures Disassemble(w).Valid() && Assemble(Disassemble(w)) == w
  {
    EncodeDecodeJ(w);
    RestOfJ(w);
    RejoinJ(w, ((w >> 7) & 0x1F) as Reg, ImmJ(w));
  }

  lemma ReassembleJalr(w: bv32)
    requires w & 0x7F == 0x67
    ensures Disassemble(w).Valid() && Assemble(Disassemble(w)) == w
  {
    WholeJalr(w);
  }

  lemma TransferOpcodes(w: bv32)
    requires Kind32(w) != Plain
    ensures w & 0x7F == 0x63 || w & 0x7F == 0x6F || w & 0x7F == 0x67
  {
  }

  /** ... and nothing else moves it: a word that is not plain is exactly an assembled control transfer. */
  lemma OnlyTransfersTransfer(w: bv32)
    requires Kind32(w) != Plain
    ensures Disassemble(w).Valid() && Assemble(Disassemble(w)) == w && Kind32(w) == Meaning(Disassemble(w))
  {
    TransferOpcodes(w);
    if w & 0x7F == 0x63 {
      ReassembleBr(w);
    } else if w & 0x7F == 0x6F {
      ReassembleJal(w);
    } else {
      ReassembleJalr(w);
    }
    ClassifiesTransfers(Disassemble(w));
  }

  // ----- The compressed control transfers -----

  datatype CInst =
    | CJ(off: bv64)
    | CBz(nez: bool, r: bv3, off: bv64)
    | CJr(link: bool, rs1: Reg)
  {
    predicate Valid() {
      match this
      case CJ(off) => RangeCj(off)
      case CBz(_, _, off) => RangeCb(off)
      case CJr(_, rs1) => rs1 != 0
    }
  }

  function RestCb(nez: bool, r: bv3): bv32 {
    (if nez then 0xE001 else 0xC001) | ((r as bv32) << 7)
  }

  /** A halfword, as a word: c.j, c.beqz or c.bnez, and c.jr or, when it links, c.jalr. */
  function AssembleC(i: CInst): bv32 {
    match i
    case CJ(off) => EncodeCj(off) | (0xA001 & !MASK_CJ)
    case CBz(nez, r, off) => EncodeCb(off) | (RestCb(nez, r) & !MASK_CB)
    case CJr(link, rs1) => (if link then 0x9002 else 0x8002) | ((rs1 as bv32) << 7)
  }

  /** c.jalr always links through x1, so it is a call and never a return; c.jr through x1 is a return. */
  function MeaningC(i: CInst): Kind {
    match i
    case CJ(off) => Jump(false, off as nat)
    case CBz(_, _, off) => Branch(off as nat)
    case CJr(link, rs1) => Indirect(link, !link && rs1 == 1)
  }

  lemma FieldsOfCj(off: bv64, h: bv16)
    requires h as bv32 == AssembleC(CJ(off))
    ensures h & 0x3 == 0x1 && (h >> 13) & 0x7 == 0x5
  {
  }

  lemma FieldsOfCb(nez: bool, r: bv3, off: bv64, h: bv16)
    requires h as bv32 == AssembleC(CBz(nez, r, off))
    ensures h & 0x3 == 0x1 && (h >> 13) & 0x7 == if nez then 0x7 else 0x6
  {
  }

  lemma FieldsOfCjr(link: bool, rs1: Reg, h: bv16)
    requires h as bv32 == AssembleC(CJr(link, rs1))
    ensures h & 0x3 == 0x2 && (h >> 13) & 0x7 == 0x4 && (h >> 2) & 0x1F == 0
    ensures (h >> 7) & 0x1F == rs1 as bv16 && (h >> 12) & 1 == if link then 1 else 0
  {
  }

  lemma KindOfCjr(link: bool, rs1: Reg, h: bv16)
    requires h as bv32 == AssembleC(CJr(link, rs1)) && rs1 != 0
    ensures IsRvc(h) && KindRvc(h) == MeaningC(CJr(link, rs1))
  {
    FieldsOfCjr(link, rs1, h);
    assert rs1 as bv16 != 0 && (rs1 as bv16 == 1 <==> rs1 == 1);
  }

  lemma KindOfCj(off: bv64, h: bv16)
    requires h as bv32 == AssembleC(CJ(off)) && RangeCj(off)
    ensures IsRvc(h) && KindRvc(h) == Jump(false, off as nat)
  {
    FieldsOfCj(off, h);
    OffsetOfCj(off, h);
    CjKind(h, off);
  }

  lemma OffsetOfCj(off: bv64, h: bv16)
    requires h as bv32 == AssembleC(CJ(off)) && RangeCj(off)
    ensures ImmCj(h as bv32) == off
  {
    OffsetOfWord(off, h as bv32);
  }

  lemma OffsetOfWord(off: bv64, w: bv32)
    requires w == EncodeCj(off) | (0xA001 & !MASK_CJ) && RangeCj(off)
    ensures ImmCj(w) == off
  {
    DecodeEncodeCj(off, 0xA001);
  }

  lemma CjKind(h: bv16, off: bv64)
    requires h & 0x3 == 0x1 && (h >> 13) & 0x7 == 0x5 && ImmCj(h as bv32) == off
    ensures KindRvc(h) == Jump(false, off as nat)
  {
  }

  lemma CbKind(h: bv16, off: bv64)
    requires h & 0x3 == 0x1 && ((h >> 13) & 0x7 == 0x6 || (h >> 13) & 0x7 == 0x7) && ImmCb(h as bv32) == off
    ensures KindRvc(h) == Branch(off as nat)
  {
  }

  lemma KindOfCb(nez: bool, r: bv3, off: bv64, h: bv16)
    requires h as bv32 == AssembleC(CBz(nez, r, off)) && RangeCb(off)
    ensures IsRvc(h) && KindRvc(h) == Branch(off as nat)
  {
    FieldsOfCb(nez, r, off, h);
    OffsetOfCb(nez, r, off, h);
    CbKind(h, off);
  }

  lemma OffsetOfCb(nez: bool, r: bv3, off: bv64, h: bv16)
    requires h as bv32 == AssembleC(CBz(nez, r, off)) && RangeCb(off)
    ensures ImmCb(h as bv32) == off
  {
    DecodeEncodeCb(off, RestCb(nez, r));
  }

  /** The same for the compressed ones: every assembled transfer gets its meaning ... */
  lemma ClassifiesCompressed(i: CInst, h: bv16)
    requires i.Valid() && h as bv32 == AssembleC(i)
    ensures IsRvc(h) && KindRvc(h) == MeaningC(i)
  {
    match i
    case CJ(off) => KindOfCj(off, h);
    case CBz(nez, r, off) => KindOfCb(nez, r, off, h);
    case CJr(link, rs1) => KindOfCjr(link, rs1, h);
  }

  function DisassembleC(h: bv16): CInst {
    if h & 0x3 == 0x1 && (h >> 13) & 0x7 == 0x5 then CJ(ImmCj(h as bv32))
    else if h & 0x3 == 0x1 then CBz((h >> 13) & 0x7 == 0x7, ((h >> 7) & 0x7) as bv3, ImmCb(h as bv32))
    else CJr((h >> 12) & 1 == 1, ((h >> 7) & 0x1F) as Reg)
  }

  lemma RejoinCj(h: bv16, off: bv64)
    requires h & 0x3 == 0x1 && (h >> 13) & 0x7 == 0x5 && EncodeCj(off) == h as bv32 & MASK_CJ
    ensures AssembleC(CJ(off)) == h as bv32
  {
    assert h as bv32 & !MASK_CJ == 0xA001;
    Reunite(h as bv32, MASK_CJ, EncodeCj(off), 0xA001);
  }

  lemma RestOfCb(h: bv16, nez: bool)
    requires h & 0x3 == 0x1 && (h >> 13) & 0x7 == if nez then 0x7 else 0x6
    ensures RestCb(nez, ((h >> 7) & 0x7) as bv3) == h as bv32 & !MASK_CB
  {
  }

  lemma RejoinCb(w: bv32, nez: bool, r: bv3, off: bv64)
    requires EncodeCb(off) == w & MASK_CB && RestCb(nez, r) == w & !MASK_CB
    ensures AssembleC(CBz(nez, r, off)) == w
  {
    Reunite(w, MASK_CB, EncodeCb(off), RestCb(nez, r));
  }

  lemma ReassembleCj(h: bv16)
    requires h & 0x3 == 0x1 && (h >> 13) & 0x7 == 0x5
    ensures DisassembleC(h).Valid() && AssembleC(DisassembleC(h)) == h as bv32
  {
    EncodeDecodeCj(h as bv32);
    RejoinCj(h, ImmCj(h as bv32));
  }

  /** The word w of a compressed branch with offset off and register r. */
  lemma ReassembleCbWord(w: bv32, nez: bool, r: bv3, off: bv64)
    requires RangeCb(off) && EncodeCb(off) == w & MASK_CB && RestCb(nez, r) == w & !MASK_CB
    ensures CBz(nez, r, off).Valid() && AssembleC(CBz(nez, r, off)) == w
  {
    RejoinCb(w, nez, r, off);
  }

  lemma DisassembledCb(h: bv16, nez: bool)
    requires h & 0x3 == 0x1 && (h >> 13) & 0x7 == if nez then 0x7 else 0x6
    ensures DisassembleC(h) == CBz(nez, ((h >> 7) & 0x7) as bv3, ImmCb(h as bv32))
  {
  }

  lemma ReassembleCb(h: bv16, nez: bool)
    requires h & 0x3 == 0x1 && (h >> 13) & 0x7 == if nez then 0x7 else 0x6
    ensures DisassembleC(h).Valid() && AssembleC(DisassembleC(h)) == h as bv32
  {
    DisassembledCb(h, nez);
    EncodeDecodeCb(h as bv32);
    RestOfCb(h, nez);
    ReassembleCbWord(h as bv32, nez, ((h >> 7) & 0x7) as bv3, ImmCb(h as bv32));
  }

  lemma ReassembleCjr(h: bv16)
    requires h & 0x3 == 0x2 && (h >> 13) & 0x7 == 0x4 && (h >> 2) & 0x1F == 0 && (h >> 7) & 0x1F != 0
    ensures DisassembleC(h).Valid() && AssembleC(DisassembleC(h)) == h as bv32
  {
  }

  /** ... and nothing else is a transfer. */
  lemma OnlyCompressedTransfers(h: bv16)
    requires KindRvc(h) != Plain
    ensures DisassembleC(h).Valid() && AssembleC(DisassembleC(h)) == h as bv32
    ensures KindRvc(h) == MeaningC(DisassembleC(h))
  {
    if h & 0x3 == 0x1 && (h >> 13) & 0x7 == 0x5 {
      ReassembleCj(h);
    } else if h & 0x3 == 0x1 {
      ReassembleCb(h, (h >> 13) & 0x7 == 0x7);
    } else {
      ReassembleCjr(h);
    }
    ClassifiesCompressed(DisassembleC(h), h);
  }

  // ----- The address rules -----

  function BitAt(pc: nat, d: nat): nat
    requires 0 < d
  {
    pc / d % 2
  }

  /** A branch is taken if and only if an odd number of the address bits 4 to 7 are set. */
  lemma TakenIffOddParity(pc: nat)
    ensures BranchTaken(pc) <==> (BitAt(pc, 16) + BitAt(pc, 32) + BitAt(pc, 64) + BitAt(pc, 128)) % 2 == 1
  {
    var h, a, b, c, d, l := Decompose(pc);
    ComposedBits(h, a, b, c, d, l);
    NibbleParity(a, b, c, d);
  }

  /** A number with the binary digits a, b, c, d in places 7 to 4. */
  function Compose(h: nat, a: nat, b: nat, c: nat, d: nat, l: nat): nat {
    256 * h + 128 * a + 64 * b + 32 * c + 16 * d + l
  }

  lemma Decompose(pc: nat) returns (h: nat, a: nat, b: nat, c: nat, d: nat, l: nat)
    ensures a < 2 && b < 2 && c < 2 && d < 2 && l < 16 && pc == Compose(h, a, b, c, d, l)
  {
    var m, n := pc / 16, pc / 16 % 16;
    l := pc % 16;
    h := m / 16;
    a, b, c, d := n / 8, n / 4 % 2, n / 2 % 2, n % 2;
    assert n == 8 * a + 4 * b + 2 * c + d;
  }

  lemma ComposedBits(h: nat, a: nat, b: nat, c: nat, d: nat, l: nat)
    requires a < 2 && b < 2 && c < 2 && d < 2 && l < 16
    ensures
      var pc := Compose(h, a, b, c, d, l);
      && BitAt(pc, 16) == d && BitAt(pc, 32) == c && BitAt(pc, 64) == b && BitAt(pc, 128) == a
      && pc / 16 % 16 == 8 * a + 4 * b + 2 * c + d
  {
    var pc := Compose(h, a, b, c, d, l);
    BitIs(pc, 16, 8 * h + 4 * a + 2 * b + c, d, l);
    BitIs(pc, 32, 4 * h + 2 * a + b, c, 16 * d + l);
    BitIs(pc, 64, 2 * h + a, b, 32 * c + 16 * d + l);
    BitIs(pc, 128, h, a, 64 * b + 32 * c + 16 * d + l);
    Nibble(pc, h, 8 * a + 4 * b + 2 * c + d, l);
  }

  lemma BitIs(pc: nat, d: nat, q: nat, bit: nat, r: nat)
    requires 0 < d && bit < 2 && r < d && pc == d * (2 * q + bit) + r
    ensures BitAt(pc, d) == bit
  {
    DivUnique(pc, d, 2 * q + bit, r);
    DivUnique(2 * q + bit, 2, q, bit);
  }

  lemma Nibble(pc: nat, h: nat, n: nat, l: nat)
    requires n < 16 && l < 16 && pc == 256 * h + 16 * n + l
    ensures pc / 16 % 16 == n
  {
    DivUnique(pc, 16, 16 * h + n, l);
    DivUnique(16 * h + n, 16, h, n);
  }

  lemma NibbleParity(a: nat, b: nat, c: nat, d: nat)
    requires a < 2 && b < 2 && c < 2 && d < 2
    ensures
      var n0 := (8 * a + 4 * b + 2 * c + d) as bv32;
      var n1 := n0 ^ (n0 >> 2);
      var n2 := n1 ^ (n1 >> 1);
      n2 & 1 != 0 <==> (a + b + c + d) % 2 == 1
  {
    var n := 8 * a + 4 * b + 2 * c + d;
    assert n == 0 || n == 1 || n == 2 || n == 3 || n == 4 || n == 5 || n == 6 || n == 7
        || n == 8 || n == 9 || n == 10 || n == 11 || n == 12 || n == 13 || n == 14 || n == 15;
  }

  /** The landing pad of an indirect jump is 64-byte aligned, and lies 64, 128, 192 or 256 bytes after the start of the
      jump's own 64-byte block, by address bits 7 and 6, wrapping at 2^64; so it is ahead of the jump and at most 256
      bytes away unless it wraps. */
  lemma LandingPadAhead(pc: nat)
    ensures JrTarget(pc) % 64 == 0
    ensures JrTarget(pc) == (64 * (pc / 64) + 64 * (2 * BitAt(pc, 128) + BitAt(pc, 64) + 1)) % M64
    ensures pc + 256 < M64 ==> pc < JrTarget(pc) <= pc + 256
  {
    var h, a, b, c, d, l := Decompose(pc);
    ComposedBits(h, a, b, c, d, l);
    var k := Block(h, a, b, c, d, l);
    Pad(pc, k, 2 * a + b);
  }

  lemma Block(h: nat, a: nat, b: nat, c: nat, d: nat, l: nat) returns (k: nat)
    requires a < 2 && b < 2 && c < 2 && d < 2 && l < 16
    ensures
      var pc := Compose(h, a, b, c, d, l);
      k == pc / 64 && k % 4 == 2 * a + b && 64 * k <= pc < 64 * k + 64
  {
    k := 4 * h + 2 * a + b;
  }

  lemma Pad(pc: nat, k: nat, r: nat)
    requires k == pc / 64 && r == k % 4 && 64 * k <= pc
    ensures
      var t := 64 * (k + r + 1);
      JrTarget(pc) == t % M64 && JrTarget(pc) % 64 == 0 && (t < M64 ==> JrTarget(pc) == t)
  {
    var t := 64 * (k + r + 1);
    assert pc / 64 * 64 + (0x40 + pc / 64 % 4 * 64) == t;
    Multiple(k + r + 1);
  }

  lemma Multiple(q: nat)
    ensures 64 * q % M64 % 64 == 0 && (64 * q < M64 ==> 64 * q % M64 == 64 * q)
  {
    var n := M64 / 64;
    DivUnique(64 * q, M64, q / n, 64 * (q % n));
    DivUnique(64 * (q % n), 64, q % n, 0);
    if 64 * q < M64 { DivUnique(64 * q, M64, 0, 64 * q); }
  }

  // ----- Where the walk goes next -----

  /** The image holds the 32-bit word w at pc: its low half there, its high half two bytes on. */
  ghost predicate HoldsWord(img: Image, pc: nat, w: bv32) {
    img(pc) as bv32 == w & 0xFFFF && img((pc + 2) % M64) as bv32 == w >> 16
  }

  ghost predicate OddParity(pc: nat) {
    (BitAt(pc, 16) + BitAt(pc, 32) + BitAt(pc, 64) + BitAt(pc, 128)) % 2 == 1
  }

  /** The landing pad of an indirect jump at pc. */
  ghost function LandingPad(pc: nat): nat {
    (64 * (pc / 64) + 64 * (2 * BitAt(pc, 128) + BitAt(pc, 64) + 1)) % M64
  }

  /** What a step must do: the entry it emits, the next pc, and what happens to stack and ring; `fall` is the address
      behind the instruction. */
  ghost predicate Goes(s: State, r: (State, Entry), e: Entry, fall: nat, call: bool, ret: bool, target: nat)
    requires s.Valid()
  {
    var (s', e'), n := r, |s.stack|;
    && e' == e && s'.count == s.count + 1
    && (s'.seen <==> s.seen || (!e.rvc && e.opcode == 0x6F))
    && s'.prefix == (if !s.seen && s'.seen then s.count else s.prefix)
    && s'.pc == (if !ret then target else if n == 0 then fall else s.stack[n - 1])
    && s'.stack == (if call then s.stack + [fall] else if ret && n > 0 then s.stack[..n - 1] else s.stack)
    && s'.ring == (if call then s.ring.Push(fall) else if ret then s.ring.Pop() else s.ring)
    && (if ret then s'.predicted == s.ring.Predict() && s'.mispredict == (s'.predicted != s'.pc)
        else s'.predicted == s.predicted && s'.mispredict == s.mispredict)
  }

  lemma WordOfHalves(lo: bv16, hi: bv16, w: bv32)
    requires lo as bv32 == w & 0xFFFF && hi as bv32 == w >> 16
    ensures Word(lo, hi) == w && (IsRvc(lo) <==> w & 0x3 != 0x3)
  {
  }

  lemma LowBits(w: bv32)
    requires w & 0x7F == 0x63 || w & 0x7F == 0x6F || w & 0x7F == 0x67
    ensures w & 0x3 == 0x3
  {
  }

  lemma OpcodeOf(i: Inst)
    ensures
      var op := Assemble(i) & 0x7F;
      op == match i { case Br(_, _, _, _) => 0x63 case Jal(_, _) => 0x6F case Jalr(_, _, _, _) => 0x67 }
  {
    match i
    case Br(f, rs1, rs2, off) =>
      OpcodeB(off, RestB(f, rs1, rs2));
      assert RestB(f, rs1, rs2) & 0x7F == 0x63;
    case Jal(rd, off) => FieldsOfWord(rd, off);
    case Jalr(rd, rs1, f, imm) => FieldsOfJalr(rd, rs1, f, imm);
  }

  lemma WordDecodes(img: Image, pc: nat, w: bv32)
    requires HoldsWord(img, pc, w) && w & 0x3 == 0x3
    ensures Decode(img, pc) == Event(Entry(pc, w, false), TransferOf(Kind32(w), pc, 4))
  {
    WordOfHalves(img(pc), img((pc + 2) % M64), w);
  }

  lemma HalfDecodes(img: Image, pc: nat, h: bv16)
    requires img(pc) == h && h & 0x3 != 0x3
    ensures Decode(img, pc) == Event(Entry(pc, h as bv32, true), TransferOf(KindRvc(h), pc, 2))
  {
  }

  /** The next pc of an event that neither calls nor returns, calls, or returns. */
  lemma EventGoes(s: State, img: Image, e: Entry, fall: nat, call: bool, ret: bool, target: nat)
    requires s.Valid() && !(call && ret) && Decode(img, s.pc) == Event(e, Transfer(call, ret, fall, target))
    ensures Goes(s, Step(s, img), e, fall, call, ret, target)
  {
  }

  /** Where the walk goes on an instruction of each kind. */
  ghost predicate KindGoes(s: State, r: (State, Entry), e: Entry, fall: nat, kind: Kind)
    requires s.Valid()
  {
    match kind
    case Plain => Goes(s, r, e, fall, false, false, fall)
    case Branch(off) => Goes(s, r, e, fall, false, false, if OddParity(s.pc) then (s.pc + off) % M64 else fall)
    case Jump(call, off) => Goes(s, r, e, fall, call, false, (s.pc + off) % M64)
    case Indirect(push, pop) => Goes(s, r, e, fall, push, pop, LandingPad(s.pc))
  }

  lemma StepGoes(s: State, img: Image, e: Entry, kind: Kind, length: nat)
    requires s.Valid() && Decode(img, s.pc) == Event(e, TransferOf(kind, s.pc, length))
    requires kind.Indirect? ==> !(kind.push && kind.pop)
    ensures KindGoes(s, Step(s, img), e, (s.pc + length) % M64, kind)
  {
    TakenIffOddParity(s.pc);
    LandingPadAhead(s.pc);
    var fall := (s.pc + length) % M64;
    match kind
    case Plain => EventGoes(s, img, e, fall, false, false, fall);
    case Branch(off) =>
      EventGoes(s, img, e, fall, false, false, if OddParity(s.pc) then (s.pc + off) % M64 else fall);
    case Jump(call, off) => EventGoes(s, img, e, fall, call, false, (s.pc + off) % M64);
    case Indirect(push, pop) => EventGoes(s, img, e, fall, push, pop, LandingPad(s.pc));
  }

  /** What the walk does on the 32-bit control transfer i, whose word is w: the word itself is emitted; a branch goes to
      pc+off if an odd number of address bits 7 to 4 are set, else on; a jal goes to pc+off; a jalr to its landing pad,
      unless it is a return, which goes to the top of the stack; calls push pc+4. */
  ghost predicate Walks(s: State, r: (State, Entry), i: Inst, w: bv32)
    requires s.Valid()
  {
    var pc, fall, e := s.pc, (s.pc + 4) % M64, Entry(s.pc, w, false);
    match i
    case Br(_, _, _, off) => Goes(s, r, e, fall, false, false, if OddParity(pc) then (pc + off as nat) % M64 else fall)
    case Jal(rd, off) => Goes(s, r, e, fall, rd == 1, false, (pc + off as nat) % M64)
    case Jalr(rd, rs1, _, _) => Goes(s, r, e, fall, rd == 1, rs1 == 1 && rd != 1, LandingPad(pc))
  }

  lemma MeaningWalks(s: State, r: (State, Entry), i: Inst, w: bv32)
    requires s.Valid() && KindGoes(s, r, Entry(s.pc, w, false), (s.pc + 4) % M64, Meaning(i))
    ensures Walks(s, r, i, w)
  {
  }

  /** Where the walk goes on a 32-bit control transfer, for every image that holds it. */
  lemma WalksTransfer(s: State, img: Image, i: Inst)
    requires s.Valid() && i.Valid() && HoldsWord(img, s.pc, Assemble(i))
    ensures Walks(s, Step(s, img), i, Assemble(i))
  {
    var w := Assemble(i);
    DecodesTo(img, s.pc, i);
    StepGoes(s, img, Entry(s.pc, w, false), Meaning(i), 4);
    MeaningWalks(s, Step(s, img), i, w);
  }

  lemma DecodesTo(img: Image, pc: nat, i: Inst)
    requires i.Valid() && HoldsWord(img, pc, Assemble(i))
    ensures Decode(img, pc) == Event(Entry(pc, Assemble(i), false), TransferOf(Meaning(i), pc, 4))
  {
    OpcodeOf(i);
    LowBits(Assemble(i));
    WordDecodes(img, pc, Assemble(i));
    ClassifiesTransfers(i);
  }

  /** Any other 32-bit word falls through to pc+4. */
  lemma WalksPast(s: State, img: Image, w: bv32)
    requires s.Valid() && HoldsWord(img, s.pc, w) && w & 0x3 == 0x3
    requires forall i: Inst :: i.Valid() ==> Assemble(i) != w
    ensures
      var fall := (s.pc + 4) % M64;
      Goes(s, Step(s, img), Entry(s.pc, w, false), fall, false, false, fall)
  {
    WordDecodes(img, s.pc, w);
    if Kind32(w) != Plain { OnlyTransfersTransfer(w); }
    StepGoes(s, img, Entry(s.pc, w, false), Plain, 4);
  }

  /** The same for the compressed control transfers, which fall through to pc+2. */
  ghost predicate WalksC(s: State, r: (State, Entry), i: CInst, w: bv32)
    requires s.Valid()
  {
    var pc, fall, e := s.pc, (s.pc + 2) % M64, Entry(s.pc, w, true);
    match i
    case CJ(off) => Goes(s, r, e, fall, false, false, (pc + off as nat) % M64)
    case CBz(_, _, off) => Goes(s, r, e, fall, false, false, if OddParity(pc) then (pc + off as nat) % M64 else fall)
    case CJr(link, rs1) => Goes(s, r, e, fall, link, !link && rs1 == 1, LandingPad(pc))
  }

  lemma MeaningWalksC(s: State, r: (State, Entry), i: CInst, w: bv32)
    requires s.Valid() && KindGoes(s, r, Entry(s.pc, w, true), (s.pc + 2) % M64, MeaningC(i))
    ensures WalksC(s, r, i, w)
  {
  }

  lemma WalksCompressed(s: State, img: Image, i: CInst)
    requires s.Valid() && i.Valid() && img(s.pc) as bv32 == AssembleC(i)
    ensures WalksC(s, Step(s, img), i, AssembleC(i))
  {
    var w := AssembleC(i);
    DecodesToC(img, s.pc, i);
    StepGoes(s, img, Entry(s.pc, w, true), MeaningC(i), 2);
    MeaningWalksC(s, Step(s, img), i, w);
  }

  lemma DecodesToC(img: Image, pc: nat, i: CInst)
    requires i.Valid() && img(pc) as bv32 == AssembleC(i)
    ensures Decode(img, pc) == Event(Entry(pc, AssembleC(i), true), TransferOf(MeaningC(i), pc, 2))
  {
    ClassifiesCompressed(i, img(pc));
    HalfDecodes(img, pc, img(pc));
  }

  /** Any other compressed instruction falls through to pc+2. */
  lemma WalksPastCompressed(s: State, img: Image, h: bv16)
    requires s.Valid() && img(s.pc) == h && h & 0x3 != 0x3
    requires forall i: CInst :: i.Valid() ==> AssembleC(i) != h as bv32
    ensures
      var fall := (s.pc + 2) % M64;
      Goes(s, Step(s, img), Entry(s.pc, h as bv32, true), fall, false, false, fall)
  {
    HalfDecodes(img, s.pc, h);
    if KindRvc(h) != Plain { OnlyCompressedTransfers(h); }
    StepGoes(s, img, Entry(s.pc, h as bv32, true), Plain, 2);
  }
}
