/** The bit-level decoders of the golden fetch model (m1_iss.h), against the encodings of the
    RISC-V Unprivileged ISA, version 20191213 (sections 2.3, 2.5 and 16.4). Offsets are 64-bit
    two's complement; a negative offset -k is the word 2^64 - k. */
module Immediates {

  // ----- Sign extension -----

  /** The two operations of sext, named so that proofs can use one without expanding the other. */
  function Flip(v: bv64, m: bv64): bv64 { v ^ m }
  function Minus(v: bv64, m: bv64): bv64 { v - m }

  function Sext(v: bv64, bits: bv7): bv64
    requires 1 <= bits <= 64
  {
    var m: bv64 := 1 << (bits - 1);
    Minus(Flip(v, m), m)
  }

  lemma FlipClearBit(v: bv64, m: bv64)
    requires m & (m - 1) == 0 && v & m == 0
    ensures Flip(v, m) == v + m
  {
  }

  lemma MinusPlus(v: bv64, m: bv64)
    ensures Minus(v + m, m) == v
  {
  }

  lemma SextClear(v: bv64, m: bv64)
    requires m & (m - 1) == 0 && v & m == 0
    ensures Minus(Flip(v, m), m) == v
  {
    FlipClearBit(v, m);
    MinusPlus(v, m);
  }

  lemma FlipTwice(v: bv64, m: bv64)
    ensures Flip(Flip(v, m), m) == v
    ensures v & m == m ==> Flip(v, m) & m == 0
  {
  }

  lemma MinusTwice(u: bv64, m: bv64)
    ensures Minus(u + m, m + m) == Minus(u, m)
  {
  }

  lemma SextSet(v: bv64, m: bv64)
    requires m & (m - 1) == 0 && v & m == m
    ensures Minus(Flip(v, m), m) == Minus(v, m + m)
  {
    var u := Flip(v, m);
    FlipTwice(v, m);
    FlipClearBit(u, m);
    MinusTwice(u, m);
  }

  lemma SignBit(v: bv64, bits: bv7)
    requires 1 <= bits <= 64 && v >> bits == 0
    ensures
      var m: bv64 := 1 << (bits - 1);
      && m & (m - 1) == 0 && 1 << bits == m + m && (v & m == 0 || v & m == m)
      && (v >> (bits - 1) == 0 <==> v & m == 0)
  {
  }

  /** For every width, sext is two's-complement extension: below the sign bit the value itself, from it on the
      value less 2^bits. */
  lemma SextIsTwosComplement(v: bv64, bits: bv7)
    requires 1 <= bits <= 64 && v >> bits == 0
    ensures Sext(v, bits) == if v >> (bits - 1) == 0 then v else Minus(v, 1 << bits)
  {
    var m: bv64 := 1 << (bits - 1);
    SignBit(v, bits);
    if v & m == 0 { SextClear(v, m); } else { SextSet(v, m); }
  }

  // ----- B format -----

  function FieldsB(i: bv32): bv64 {
    (((i >> 31) & 0x1) as bv64 << 12) | (((i >> 7) & 0x1) as bv64 << 11) |
    (((i >> 25) & 0x3F) as bv64 << 5) | (((i >> 8) & 0xF) as bv64 << 1)
  }

  function ImmB(i: bv32): bv64 { Sext(FieldsB(i), 13) }

  /** imm[12|10:5] in bits 31:25 and imm[4:1|11] in bits 11:7. */
  function EncodeB(o: bv64): bv32 {
    (((o >> 12) & 1) as bv32 << 31) | (((o >> 5) & 0x3F) as bv32 << 25) |
    (((o >> 1) & 0xF) as bv32 << 8) | (((o >> 11) & 1) as bv32 << 7)
  }

  const MASK_B: bv32 := 0xFE00_0F80

  /** Even offsets from -4096 to 4094. */
  predicate RangeB(o: bv64) { o & 1 == 0 && (o < 0x1000 || o >= 0xFFFF_FFFF_FFFF_F000) }

  lemma ExtendB(v: bv64)
    requires v >> 13 == 0
    ensures Sext(v, 13) == if v < 0x1000 then v else Minus(v, 0x2000)
  {
    SextIsTwosComplement(v, 13);
    assert (1 as bv64) << (13 as bv7) == 0x2000;
    assert v >> (12 as bv7) == 0 <==> v < 0x1000;
  }

  lemma FieldsEncodeB(o: bv64, rest: bv32)
    ensures FieldsB(EncodeB(o) | (rest & !MASK_B)) == o & 0x1FFE
  {
  }

  lemma EncodeFieldsB(i: bv32)
    ensures FieldsB(i) >> 13 == 0 && FieldsB(i) & 1 == 0
    ensures EncodeB(FieldsB(i)) == i & MASK_B
  {
  }

  lemma WrapB(o: bv64)
    requires RangeB(o)
    ensures o < 0x1000 ==> o & 0x1FFE == o
    ensures o >= 0x1000 ==> 0x1000 <= o & 0x1FFE < 0x2000 && Minus(o & 0x1FFE, 0x2000) == o
  {
  }

  lemma UnwrapB(v: bv64)
    requires v & 1 == 0 && 0x1000 <= v < 0x2000
    ensures RangeB(Minus(v, 0x2000)) && EncodeB(Minus(v, 0x2000)) == EncodeB(v)
  {
  }

  /** Decoding an encoded offset returns it, whatever the other instruction bits. */
  lemma DecodeEncodeB(o: bv64, rest: bv32)
    requires RangeB(o)
    ensures ImmB(EncodeB(o) | (rest & !MASK_B)) == o
  {
    FieldsEncodeB(o, rest);
    EncodeFieldsB(EncodeB(o) | (rest & !MASK_B));
    WrapB(o);
    ExtendB(o & 0x1FFE);
  }

  lemma ReEncodeB(v: bv64)
    requires v >> 13 == 0 && v & 1 == 0
    ensures RangeB(Sext(v, 13)) && EncodeB(Sext(v, 13)) == EncodeB(v)
  {
    ExtendB(v);
    if v >= 0x1000 {
      assert v < 0x2000;
      UnwrapB(v);
    }
  }

  /** Every instruction word decodes to an offset in range, and re-encodes to its own immediate bits. */
  lemma EncodeDecodeB(i: bv32)
    ensures RangeB(ImmB(i)) && EncodeB(ImmB(i)) == i & MASK_B
  {
    EncodeFieldsB(i);
    ReEncodeB(FieldsB(i));
  }

  // ----- J format -----

  function FieldsJ(i: bv32): bv64 {
    (((i >> 31) & 0x1) as bv64 << 20) | (((i >> 12) & 0xFF) as bv64 << 12) |
    (((i >> 20) & 0x1) as bv64 << 11) | (((i >> 21) & 0x3FF) as bv64 << 1)
  }

  function ImmJ(i: bv32): bv64 { Sext(FieldsJ(i), 21) }

  /** imm[20|10:1|11|19:12] in bits 31:12. */
  function EncodeJ(o: bv64): bv32 {
    (((o >> 20) & 1) as bv32 << 31) | (((o >> 1) & 0x3FF) as bv32 << 21) |
    (((o >> 11) & 1) as bv32 << 20) | (((o >> 12) & 0xFF) as bv32 << 12)
  }

  const MASK_J: bv32 := 0xFFFF_F000

  /** Even offsets from -2^20 to 2^20 - 2. */
  predicate RangeJ(o: bv64) { o & 1 == 0 && (o < 0x100000 || o >= 0xFFFFFFFFFFF00000) }

  lemma ExtendJ(v: bv64)
    requires v >> 21 == 0
    ensures Sext(v, 21) == if v < 0x100000 then v else Minus(v, 0x200000)
  {
    SextIsTwosComplement(v, 21);
    assert (1 as bv64) << (21 as bv7) == 0x200000;
    assert v >> (20 as bv7) == 0 <==> v < 0x100000;
  }

  lemma FieldsEncodeJ(o: bv64, rest: bv32)
    ensures FieldsJ(EncodeJ(o) | (rest & !MASK_J)) == o & 0x1FFFFE
  {
  }

  lemma EncodeFieldsJ(i: bv32)
    ensures FieldsJ(i) >> 21 == 0 && FieldsJ(i) & 1 == 0
    ensures EncodeJ(FieldsJ(i)) == i & MASK_J
  {
  }

  lemma WrapJ(o: bv64)
    requires RangeJ(o)
    ensures o < 0x100000 ==> o & 0x1FFFFE == o
    ensures o >= 0x100000 ==> 0x100000 <= o & 0x1FFFFE < 0x200000 && Minus(o & 0x1FFFFE, 0x200000) == o
  {
  }

  lemma UnwrapJ(v: bv64)
    requires v & 1 == 0 && 0x100000 <= v < 0x200000
    ensures RangeJ(Minus(v, 0x200000)) && EncodeJ(Minus(v, 0x200000)) == EncodeJ(v)
  {
  }

  /** Decoding an encoded offset returns it, whatever the other instruction bits. */
  lemma DecodeEncodeJ(o: bv64, rest: bv32)
    requires RangeJ(o)
    ensures ImmJ(EncodeJ(o) | (rest & !MASK_J)) == o
  {
    FieldsEncodeJ(o, rest);
    EncodeFieldsJ(EncodeJ(o) | (rest & !MASK_J));
    WrapJ(o);
    ExtendJ(o & 0x1FFFFE);
  }

  lemma ReEncodeJ(v: bv64)
    requires v >> 21 == 0 && v & 1 == 0
    ensures RangeJ(Sext(v, 21)) && EncodeJ(Sext(v, 21)) == EncodeJ(v)
  {
    ExtendJ(v);
    if v >= 0x100000 {
      assert v < 0x200000;
      UnwrapJ(v);
    }
  }

  /** Every instruction word decodes to an offset in range, and re-encodes to its own immediate bits. */
  lemma EncodeDecodeJ(i: bv32)
    ensures RangeJ(ImmJ(i)) && EncodeJ(ImmJ(i)) == i & MASK_J
  {
    EncodeFieldsJ(i);
    ReEncodeJ(FieldsJ(i));
  }

  // ----- CJ format -----

  function FieldsCj(i: bv32): bv64 {
    (((i >> 12) & 0x1) as bv64 << 11) | (((i >> 11) & 0x1) as bv64 << 4) | (((i >> 9) & 0x3) as bv64 << 8) |
    (((i >> 8) & 0x1) as bv64 << 10) | (((i >> 7) & 0x1) as bv64 << 6) | (((i >> 6) & 0x1) as bv64 << 7) |
    (((i >> 3) & 0x7) as bv64 << 1) | (((i >> 2) & 0x1) as bv64 << 5)
  }

  function ImmCj(i: bv32): bv64 { Sext(FieldsCj(i), 12) }

  /** offset[11|4|9:8|10|6|7|3:1|5] in bits 12:2. */
  function EncodeCj(o: bv64): bv32 {
    (((o >> 11) & 1) as bv32 << 12) | (((o >> 4) & 1) as bv32 << 11) | (((o >> 8) & 3) as bv32 << 9) |
    (((o >> 10) & 1) as bv32 << 8) | (((o >> 6) & 1) as bv32 << 7) | (((o >> 7) & 1) as bv32 << 6) |
    (((o >> 1) & 7) as bv32 << 3) | (((o >> 5) & 1) as bv32 << 2)
  }

  const MASK_CJ: bv32 := 0x0000_1FFC

  /** Even offsets from -2048 to 2046. */
  predicate RangeCj(o: bv64) { o & 1 == 0 && (o < 0x800 || o >= 0xFFFFFFFFFFFFF800) }

  lemma ExtendCj(v: bv64)
    requires v >> 12 == 0
    ensures Sext(v, 12) == if v < 0x800 then v else Minus(v, 0x1000)
  {
    SextIsTwosComplement(v, 12);
    assert (1 as bv64) << (12 as bv7) == 0x1000;
    assert v >> (11 as bv7) == 0 <==> v < 0x800;
  }

  lemma FieldsEncodeCj(o: bv64, rest: bv32)
    ensures FieldsCj(EncodeCj(o) | (rest & !MASK_CJ)) == o & 0xFFE
  {
  }

  lemma EncodeFieldsCj(i: bv32)
    ensures FieldsCj(i) >> 12 == 0 && FieldsCj(i) & 1 == 0
    ensures EncodeCj(FieldsCj(i)) == i & MASK_CJ
  {
  }

  lemma WrapCj(o: bv64)
    requires RangeCj(o)
    ensures o < 0x800 ==> o & 0xFFE == o
    ensures o >= 0x800 ==> 0x800 <= o & 0xFFE < 0x1000 && Minus(o & 0xFFE, 0x1000) == o
  {
  }

  lemma UnwrapCj(v: bv64)
    requires v & 1 == 0 && 0x800 <= v < 0x1000
    ensures RangeCj(Minus(v, 0x1000)) && EncodeCj(Minus(v, 0x1000)) == EncodeCj(v)
  {
  }

  /** Decoding an encoded offset returns it, whatever the other instruction bits. */
  lemma DecodeEncodeCj(o: bv64, rest: bv32)
    requires RangeCj(o)
    ensures ImmCj(EncodeCj(o) | (rest & !MASK_CJ)) == o
  {
    FieldsEncodeCj(o, rest);
    EncodeFieldsCj(EncodeCj(o) | (rest & !MASK_CJ));
    WrapCj(o);
    ExtendCj(o & 0xFFE);
  }

  lemma ReEncodeCj(v: bv64)
    requires v >> 12 == 0 && v & 1 == 0
    ensures RangeCj(Sext(v, 12)) && EncodeCj(Sext(v, 12)) == EncodeCj(v)
  {
    ExtendCj(v);
    if v >= 0x800 {
      assert v < 0x1000;
      UnwrapCj(v);
    }
  }

  /** Every instruction word decodes to an offset in range, and re-encodes to its own immediate bits. */
  lemma EncodeDecodeCj(i: bv32)
    ensures RangeCj(ImmCj(i)) && EncodeCj(ImmCj(i)) == i & MASK_CJ
  {
    EncodeFieldsCj(i);
    ReEncodeCj(FieldsCj(i));
  }

  // ----- CB format -----

  function FieldsCb(i: bv32): bv64 {
    (((i >> 12) & 0x1) as bv64 << 8) | (((i >> 10) & 0x3) as bv64 << 3) | (((i >> 5) & 0x3) as bv64 << 6) |
    (((i >> 3) & 0x3) as bv64 << 1) | (((i >> 2) & 0x1) as bv64 << 5)
  }

  function ImmCb(i: bv32): bv64 { Sext(FieldsCb(i), 9) }

  /** offset[8|4:3] in bits 12:10 and offset[7:6|2:1|5] in bits 6:2. */
  function EncodeCb(o: bv64): bv32 {
    (((o >> 8) & 1) as bv32 << 12) | (((o >> 3) & 3) as bv32 << 10) | (((o >> 6) & 3) as bv32 << 5) |
    (((o >> 1) & 3) as bv32 << 3) | (((o >> 5) & 1) as bv32 << 2)
  }

  const MASK_CB: bv32 := 0x0000_1C7C

  /** Even offsets from -256 to 254. */
  predicate RangeCb(o: bv64) { o & 1 == 0 && (o < 0x100 || o >= 0xFFFFFFFFFFFFFF00) }

  lemma ExtendCb(v: bv64)
    requires v >> 9 == 0
    ensures Sext(v, 9) == if v < 0x100 then v else Minus(v, 0x200)
  {
    SextIsTwosComplement(v, 9);
    assert (1 as bv64) << (9 as bv7) == 0x200;
    assert v >> (8 as bv7) == 0 <==> v < 0x100;
  }

  lemma FieldsEncodeCb(o: bv64, rest: bv32)
    ensures FieldsCb(EncodeCb(o) | (rest & !MASK_CB)) == o & 0x1FE
  {
  }

  lemma EncodeFieldsCb(i: bv32)
    ensures FieldsCb(i) >> 9 == 0 && FieldsCb(i) & 1 == 0
    ensures EncodeCb(FieldsCb(i)) == i & MASK_CB
  {
  }

  lemma WrapCb(o: bv64)
    requires RangeCb(o)
    ensures o < 0x100 ==> o & 0x1FE == o
    ensures o >= 0x100 ==> 0x100 <= o & 0x1FE < 0x200 && Minus(o & 0x1FE, 0x200) == o
  {
  }

  lemma UnwrapCb(v: bv64)
    requires v & 1 == 0 && 0x100 <= v < 0x200
    ensures RangeCb(Minus(v, 0x200)) && EncodeCb(Minus(v, 0x200)) == EncodeCb(v)
  {
  }

  /** Decoding an encoded offset returns it, whatever the other instruction bits. */
  lemma DecodeEncodeCb(o: bv64, rest: bv32)
    requires RangeCb(o)
    ensures ImmCb(EncodeCb(o) | (rest & !MASK_CB)) == o
  {
    FieldsEncodeCb(o, rest);
    EncodeFieldsCb(EncodeCb(o) | (rest & !MASK_CB));
    WrapCb(o);
    ExtendCb(o & 0x1FE);
  }

  lemma ReEncodeCb(v: bv64)
    requires v >> 9 == 0 && v & 1 == 0
    ensures RangeCb(Sext(v, 9)) && EncodeCb(Sext(v, 9)) == EncodeCb(v)
  {
    ExtendCb(v);
    if v >= 0x100 {
      assert v < 0x200;
      UnwrapCb(v);
    }
  }

  /** Every instruction word decodes to an offset in range, and re-encodes to its own immediate bits. */
  lemma EncodeDecodeCb(i: bv32)
    ensures RangeCb(ImmCb(i)) && EncodeCb(ImmCb(i)) == i & MASK_CB
  {
    EncodeFieldsCb(i);
    ReEncodeCb(FieldsCb(i));
  }
}
