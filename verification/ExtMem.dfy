/** ExtMem (io/ExtMem.h) and the word and byte accessors of TestBench: a sparse memory of
    4 KiB pages, kept in 1024 buckets keyed by the high part of the address. */
module Memory {
  import opened Axi
  import opened Arith

  const PAGE := 4096

  /** The page table. `unit` is 1 << PPN1_POS: 2^22, or 2^21 when PROC_64BIT is defined. */
  datatype Store = Store(unit: nat, pages: map<(nat, nat), seq<Byte>>) {
    ghost predicate Valid() {
      && (unit == 0x20_0000 || unit == 0x40_0000)
      && forall k :: k in pages ==> |pages[k]| == PAGE
    }

    /** The bucket and the key under which get_page looks for an address. */
    function Slot(a: nat): (nat, nat)
      requires unit > 0
    {
      ((a / PAGE) % 1024, a / unit)
    }

    /** The flat view: the byte at an address, zero where no page was ever touched. */
    function Peek(a: nat): Byte
      requires Valid()
    {
      if Slot(a) in pages then pages[Slot(a)][a % PAGE] else 0
    }

    /** get_page: an existing page, or a new page of zeros. */
    function GetPage(a: nat): (r: (Store, seq<Byte>))
      requires Valid()
      ensures r.0.Valid() && r.0.unit == unit && |r.1| == PAGE
    {
      if Slot(a) in pages then (this, pages[Slot(a)])
      else
        var zeros := seq(PAGE, _ => 0 as Byte);
        (this.(pages := pages[Slot(a) := zeros]), zeros)
    }

    /** Bytes `bs` copied into the page of `a`, at the offset of `a`. */
    function Poke(a: nat, bs: seq<Byte>): (r: Store)
      requires Valid() && a % PAGE + |bs| <= PAGE
      ensures r.Valid() && r.unit == unit
    {
      var (s, p) := GetPage(a);
      var o := a % PAGE;
      s.(pages := s.pages[s.Slot(a) := p[..o] + bs + p[o + |bs|..]])
    }

    /** The `n` bytes from `a` on, read from the page of `a`. */
    function Read(a: nat, n: nat): (bs: seq<Byte>)
      requires Valid() && a % PAGE + n <= PAGE
      ensures |bs| == n
    {
      var (_, p) := GetPage(a);
      p[a % PAGE..a % PAGE + n]
    }
  }

  lemma KeyOfPage(a: nat)
    ensures a / 0x20_0000 == (a / PAGE) / 512
    ensures a / 0x40_0000 == (a / PAGE) / 1024
  {
  }

  lemma PageFromSplit(p: nat, q: nat)
    requires p % 1024 == q % 1024 && (p / 512 == q / 512 || p / 1024 == q / 1024)
    ensures p == q
  {
    assert p == 1024 * (p / 1024) + p % 1024 && q == 1024 * (q / 1024) + q % 1024;
    Halves(p);
    Halves(q);
  }

  lemma Halves(p: nat)
    ensures p / 1024 == p / 512 / 2
  {
  }

  /** The (bucket, key) split is injective on page numbers, for both settings of PPN1_POS. */
  lemma SlotInjective(st: Store, a: nat, b: nat)
    requires st.Valid()
    ensures st.Slot(a) == st.Slot(b) <==> a / PAGE == b / PAGE
  {
    KeyOfPage(a);
    KeyOfPage(b);
    if st.Slot(a) == st.Slot(b) {
      PageFromSplit(a / PAGE, b / PAGE);
    }
  }

  /** Writing within a page changes exactly the bytes written. */
  lemma PeekPoke(st: Store, a: nat, bs: seq<Byte>, b: nat)
    requires st.Valid() && a % PAGE + |bs| <= PAGE
    ensures st.Poke(a, bs).Peek(b) == if a <= b < a + |bs| then bs[b - a] else st.Peek(b)
  {
    SlotInjective(st, a, b);
    assert a == a / PAGE * PAGE + a % PAGE && b == b / PAGE * PAGE + b % PAGE;
  }

  /** Looking a page up never changes a byte. */
  lemma PeekGetPage(st: Store, a: nat, b: nat)
    requires st.Valid()
    ensures st.GetPage(a).0.Peek(b) == st.Peek(b)
  {
  }

  /** Reading within a page returns the flat bytes. */
  lemma ReadPeek(st: Store, a: nat, n: nat)
    requires st.Valid() && a % PAGE + n <= PAGE
    ensures forall i :: 0 <= i < n ==> st.Read(a, n)[i] == st.Peek(a + i)
  {
    forall i | 0 <= i < n ensures st.Read(a, n)[i] == st.Peek(a + i) {
      assert (a + i) / PAGE == a / PAGE && (a + i) % PAGE == a % PAGE + i;
      SlotInjective(st, a, a + i);
    }
  }

  // ----- Accesses -----

  /** A transfer the source supports: at most the bus width, aligned to its size. */
  predicate Aligned(a: nat, size: nat) {
    size <= 6 && a % Pow2(size) == 0
  }

  lemma SizeValues()
    ensures Pow2(0) == 1 && Pow2(1) == 2 && Pow2(2) == 4 && Pow2(3) == 8
    ensures Pow2(4) == 16 && Pow2(5) == 32 && Pow2(6) == 64
  {
    assert Pow2(2) == 2 * Pow2(1) && Pow2(4) == 2 * Pow2(3) && Pow2(6) == 2 * Pow2(5);
  }

  /** An aligned transfer crosses neither a page nor the bus. */
  lemma AlignedFits(a: nat, size: nat)
    requires Aligned(a, size)
    ensures 1 <= Pow2(size) <= BUS
    ensures a % PAGE + Pow2(size) <= PAGE && a % BUS + Pow2(size) <= BUS
  {
    var n, k := Pow2(size), Pow2(6 - size);
    SizeValues();
    assert n * k == BUS;
    MultipleFits(a, n, k);
    Assoc(n, k, PAGE / BUS);
    MultipleFits(a, n, k * (PAGE / BUS));
  }

  /** The pins between the memory controller and the memory: the byte lane of address a is a % 64. */
  datatype Pins = Pins(addr: nat, size: nat, cs: bool, we: bool, din: seq<Byte>, dout: seq<Byte>) {
    ghost predicate Valid() {
      |din| == |dout| == BUS && (cs ==> Aligned(addr, size))
    }
  }

  function Lanes(a: nat, size: nat, word: seq<Byte>): (bs: seq<Byte>)
    requires |word| == BUS && Aligned(a, size)
    ensures |bs| == Pow2(size)
  {
    AlignedFits(a, size);
    word[a % BUS..a % BUS + Pow2(size)]
  }

  /** ExtMem::update: nothing without chip select; otherwise write the addressed lanes into memory, or read them
      from memory leaving the other lanes of dout as they were. */
  function Update(st: Store, p: Pins): (r: (Store, Pins))
    requires st.Valid() && p.Valid()
    ensures r.0.Valid() && r.0.unit == st.unit && r.1.Valid()
  {
    if !p.cs then (st, p)
    else
      AlignedFits(p.addr, p.size);
      var n, o := Pow2(p.size), p.addr % BUS;
      if p.we then (st.Poke(p.addr, p.din[o..o + n]), p)
      else (st.GetPage(p.addr).0, p.(dout := p.dout[..o] + st.Read(p.addr, n) + p.dout[o + n..]))
  }

  /** One update writes exactly the addressed bytes, if it writes. */
  lemma UpdateWrites(st: Store, p: Pins, a: nat)
    requires st.Valid() && p.Valid()
    ensures Update(st, p).0.Peek(a) == if p.cs && p.we && p.addr <= a < p.addr + Pow2(p.size)
                                       then Lanes(p.addr, p.size, p.din)[a - p.addr] else st.Peek(a)
  {
    if p.cs {
      AlignedFits(p.addr, p.size);
      if p.we {
        PeekPoke(st, p.addr, Lanes(p.addr, p.size, p.din), a);
      } else {
        PeekGetPage(st, p.addr, a);
      }
    }
  }

  /** One update shows the addressed bytes on their lanes, if it reads. */
  lemma UpdateReads(st: Store, p: Pins, i: nat)
    requires st.Valid() && p.Valid() && p.cs && !p.we && i < Pow2(p.size)
    ensures Lanes(p.addr, p.size, Update(st, p).1.dout)[i] == st.Peek(p.addr + i)
  {
    AlignedFits(p.addr, p.size);
    ReadPeek(st, p.addr, Pow2(p.size));
  }

  /** One update changes no pin but, if it reads, the addressed lanes of dout. */
  lemma UpdateKeeps(st: Store, p: Pins, l: nat)
    requires st.Valid() && p.Valid() && l < BUS
    requires p.cs && !p.we ==> !(p.addr % BUS <= l < p.addr % BUS + Pow2(p.size))
    ensures
      var p' := Update(st, p).1;
      p'.dout[l] == p.dout[l] && p' == p.(dout := p'.dout)
  {
    if p.cs { AlignedFits(p.addr, p.size); }
  }

  /** The 64-bit word that read_mem and write_mem address: the aligned one that contains `a`. */
  function WordBase(a: nat): nat {
    a / 8 * 8
  }

  lemma WordFits(a: nat)
    ensures WordBase(a) / PAGE == a / PAGE && WordBase(a) % PAGE == a % PAGE / 8 * 8
    ensures WordBase(a) % PAGE + 8 <= PAGE && WordBase(a) <= a < WordBase(a) + 8
  {
    var p, o := a / PAGE, a % PAGE;
    assert a == PAGE * p + o;
    assert a / 8 == PAGE / 8 * p + o / 8;
  }

  /** The array element m[(a & 0xfff) / 8] of the page of `a`. */
  function PageWord(st: Store, a: nat): (w: seq<Byte>)
    requires st.Valid()
    ensures |w| == 8
  {
    var k := a % PAGE / 8 * 8;
    st.GetPage(a).1[k..k + 8]
  }

  lemma WordOfPage(st: Store, a: nat)
    requires st.Valid()
    ensures forall i :: 0 <= i < 8 ==> PageWord(st, a)[i] == st.Peek(WordBase(a) + i)
  {
    WordFits(a);
    SlotInjective(st, a, WordBase(a));
    ReadPeek(st, WordBase(a), 8);
    assert PageWord(st, a) == st.Read(WordBase(a), 8);
  }

  /** ExtMem as an object, with the testbench accessors. */
  class ExtMem {
    const unit: nat
    var pages: map<(nat, nat), seq<Byte>>

    ghost function View(): Store
      reads this
    {
      Store(unit, pages)
    }

    ghost predicate Valid()
      reads this
    {
      View().Valid()
    }

    constructor (unit: nat)
      requires unit == 0x20_0000 || unit == 0x40_0000
      ensures Valid() && this.unit == unit && forall a: nat :: View().Peek(a) == 0
    {
      this.unit := unit;
      pages := map[];
    }

    method GetPage(a: nat) returns (page: seq<Byte>)
      requires Valid()
      modifies this
      ensures Valid() && (View(), page) == old(View()).GetPage(a)
      ensures View().Slot(a) in pages && pages[View().Slot(a)] == page
    {
      var key := ((a / PAGE) % 1024, a / unit);
      if key !in pages {
        pages := pages[key := seq(PAGE, _ => 0)];
      }
      page := pages[key];
    }

    /** memcpy into the page of `a`. */
    method CopyIn(a: nat, bs: seq<Byte>)
      requires Valid() && a % PAGE + |bs| <= PAGE
      modifies this
      ensures Valid() && View() == old(View()).Poke(a, bs)
    {
      var page := GetPage(a);
      var o := a % PAGE;
      pages := pages[((a / PAGE) % 1024, a / unit) := page[..o] + bs + page[o + |bs|..]];
    }

    method MemUpdate(p: Pins) returns (p': Pins)
      requires Valid() && p.Valid()
      modifies this
      ensures Valid() && (View(), p') == Update(old(View()), p)
    {
      p' := p;
      if p.cs {
        AlignedFits(p.addr, p.size);
        SizeValues();
        var n, o := Pow2(p.size), p.addr % BUS;
        if p.we {
          CopyIn(p.addr, p.din[o..o + n]);
        } else {
          var page := GetPage(p.addr);
          p' := p.(dout := p.dout[..o] + page[p.addr % PAGE..p.addr % PAGE + n] + p.dout[o + n..]);
        }
      }
    }

    method ReadMem(a: nat) returns (word: seq<Byte>)
      requires Valid()
      modifies this
      ensures Valid() && |word| == 8
      ensures forall i :: 0 <= i < 8 ==> word[i] == old(View()).Peek(WordBase(a) + i)
      ensures forall b: nat :: View().Peek(b) == old(View()).Peek(b)
    {
      ghost var st := View();
      WordOfPage(st, a);
      forall b: nat ensures st.GetPage(a).0.Peek(b) == st.Peek(b) { PeekGetPage(st, a, b); }
      var page := GetPage(a);
      var k := a % PAGE / 8 * 8;
      assert k + 8 <= PAGE by { WordFits(a); }
      word := page[k..k + 8];
      assert word == PageWord(st, a);
    }

    method WriteMem(a: nat, word: seq<Byte>)
      requires Valid() && |word| == 8
      modifies this
      ensures Valid()
      ensures forall b: nat :: View().Peek(b) == if WordBase(a) <= b < WordBase(a) + 8 then word[b - WordBase(a)] else old(View()).Peek(b)
    {
      ghost var st := View();
      WordFits(a);
      forall b: nat ensures st.Poke(WordBase(a), word).Peek(b) ==
        if WordBase(a) <= b < WordBase(a) + 8 then word[b - WordBase(a)] else st.Peek(b)
      {
        PeekPoke(st, WordBase(a), word, b);
      }
      CopyIn(a / 8 * 8, word);
    }

    method WriteByte(a: nat, data: Byte)
      requires Valid()
      modifies this
      ensures Valid()
      ensures forall b: nat :: View().Peek(b) == if b == a then data else old(View()).Peek(b)
    {
      ghost var st := View();
      forall b: nat ensures st.Poke(a, [data]).Peek(b) == if b == a then data else st.Peek(b) {
        PeekPoke(st, a, [data], b);
      }
      CopyIn(a, [data]);
    }
  }

  // ----- Any interleaving of accesses refines a flat byte map -----

  datatype MemOp =
    | Access(pins: Pins)                     // ExtMem::update
    | WriteWord(addr: nat, word: seq<Byte>)  // write_mem
    | WriteOne(addr: nat, data: Byte)        // write_byte
    | ReadWord(addr: nat)                    // read_mem
  {
    ghost predicate Valid() {
      match this
      case Access(p) => p.Valid()
      case WriteWord(_, w) => |w| == 8
      case WriteOne(_, _) => true
      case ReadWord(_) => true
    }

    /** The byte this operation writes at address a, if any. */
    ghost function Writes(a: nat): Option<Byte>
      requires Valid()
    {
      match this
      case Access(p) =>
        if p.cs && p.we && p.addr <= a < p.addr + Pow2(p.size)
        then Some(Lanes(p.addr, p.size, p.din)[a - p.addr]) else None
      case WriteWord(b, w) => if WordBase(b) <= a < WordBase(b) + 8 then Some(w[a - WordBase(b)]) else None
      case WriteOne(b, d) => if a == b then Some(d) else None
      case ReadWord(_) => None
    }
  }

  ghost function Apply(st: Store, op: MemOp): (r: Store)
    requires st.Valid() && op.Valid()
    ensures r.Valid() && r.unit == st.unit
  {
    match op
    case Access(p) => Update(st, p).0
    case WriteWord(b, w) => WordFits(b); st.Poke(WordBase(b), w)
    case WriteOne(b, d) => st.Poke(b, [d])
    case ReadWord(b) => st.GetPage(b).0
  }

  ghost function ApplyAll(st: Store, ops: seq<MemOp>): (r: Store)
    requires st.Valid() && forall k :: 0 <= k < |ops| ==> ops[k].Valid()
    ensures r.Valid() && r.unit == st.unit
  {
    if ops == [] then st else Apply(ApplyAll(st, ops[..|ops| - 1]), ops[|ops| - 1])
  }

  lemma {:induction false} ApplyConcat(st: Store, xs: seq<MemOp>, ys: seq<MemOp>)
    requires st.Valid() && (forall k :: 0 <= k < |xs| ==> xs[k].Valid()) && forall k :: 0 <= k < |ys| ==> ys[k].Valid()
    ensures ApplyAll(st, xs + ys) == ApplyAll(ApplyAll(st, xs), ys)
    decreases |ys|
  {
    if ys == [] {
      assert xs + ys == xs;
    } else {
      var n := |ys| - 1;
      ApplyConcat(st, xs, ys[..n]);
      assert (xs + ys)[..|xs + ys| - 1] == xs + ys[..n];
    }
  }

  lemma {:induction false} LastConcat(base: Byte, xs: seq<MemOp>, ys: seq<MemOp>, a: nat)
    requires (forall k :: 0 <= k < |xs| ==> xs[k].Valid()) && forall k :: 0 <= k < |ys| ==> ys[k].Valid()
    ensures LastWritten(base, xs + ys, a) == LastWritten(LastWritten(base, xs, a), ys, a)
    decreases |ys|
  {
    if ys == [] {
      assert xs + ys == xs;
    } else {
      var n := |ys| - 1;
      LastConcat(base, xs, ys[..n], a);
      assert (xs + ys)[..|xs + ys| - 1] == xs + ys[..n];
    }
  }

  /** One operation changes exactly the bytes it writes. */
  lemma ApplyPeek(st: Store, op: MemOp, a: nat)
    requires st.Valid() && op.Valid()
    ensures Apply(st, op).Peek(a) == if op.Writes(a).Some? then op.Writes(a).value else st.Peek(a)
  {
    match op
    case Access(p) => UpdateWrites(st, p, a);
    case WriteWord(b, w) => WordFits(b); PeekPoke(st, WordBase(b), w, a);
    case WriteOne(b, d) => PeekPoke(st, b, [d], a);
    case ReadWord(b) => PeekGetPage(st, b, a);
  }

  /** The last byte written at address a, or `base` if there is none. */
  ghost function LastWritten(base: Byte, ops: seq<MemOp>, a: nat): Byte
    requires forall k :: 0 <= k < |ops| ==> ops[k].Valid()
  {
    if ops == [] then base
    else
      var w := ops[|ops| - 1].Writes(a);
      if w.Some? then w.value else LastWritten(base, ops[..|ops| - 1], a)
  }

  /** Paged memory refines a flat map: after any operations, with either page-table layout, every address holds the
      last byte written there, and where none was written what it held before: zero, in an empty memory. */
  lemma {:induction false} FlatRefinement(start: Store, ops: seq<MemOp>, a: nat)
    requires start.Valid() && forall k :: 0 <= k < |ops| ==> ops[k].Valid()
    ensures ApplyAll(start, ops).Peek(a) == LastWritten(start.Peek(a), ops, a)
    ensures start.pages == map[] ==> start.Peek(a) == 0
  {
    if ops == [] {
    } else {
      var before, op := ops[..|ops| - 1], ops[|ops| - 1];
      FlatRefinement(start, before, a);
      ApplyPeek(ApplyAll(start, before), op, a);
    }
  }

  /** ... so every bus read and every word read returns the last bytes written. */
  lemma ReadsSeeLastWrites(start: Store, ops: seq<MemOp>, p: Pins, a: nat, i: nat)
    requires start.Valid() && p.Valid() && forall k :: 0 <= k < |ops| ==> ops[k].Valid()
    ensures p.cs && !p.we && i < Pow2(p.size) ==>
              Lanes(p.addr, p.size, Update(ApplyAll(start, ops), p).1.dout)[i] ==
              LastWritten(start.Peek(p.addr + i), ops, p.addr + i)
    ensures i < 8 ==> PageWord(ApplyAll(start, ops), a)[i] ==
                      LastWritten(start.Peek(WordBase(a) + i), ops, WordBase(a) + i)
  {
    var st := ApplyAll(start, ops);
    if p.cs && !p.we && i < Pow2(p.size) {
      UpdateReads(st, p, i);
      FlatRefinement(start, ops, p.addr + i);
    }
    if i < 8 {
      WordOfPage(st, a);
      FlatRefinement(start, ops, WordBase(a) + i);
    }
  }
}
