/** Two byte-level loops of testbench/TestBench.cpp over the paged memory: the output of the write system call and the
    copy of the device tree. Addresses are 64-bit. */
module TestBench {
  import opened Arith
  import opened Axi
  import opened Memory
  import opened Space

  // ----- The write system call -----

  /** Within a word, addresses step without wrapping around. */
  lemma WithinWord(x: nat, k: nat)
    requires x % M64 % 8 + k < 8
    ensures (x + k) % M64 == x % M64 + k && WordBase(x % M64) + x % M64 % 8 == x % M64
  {
    var a := x % M64;
    assert a / 8 <= M64 / 8 - 1;
    assert a + k < M64;
  }

  lemma WordStep(x: nat, n: nat)
    ensures (x % M64 + n) % M64 == (x + n) % M64
  {
  }

  /** The n bytes from address a on, wrapping around at the end of the address space. */
  function Bytes(v: Store, a: nat, n: nat): (bs: seq<Byte>)
    requires v.Valid()
    ensures |bs| == n
  {
    seq<Byte>(n, k requires 0 <= k < n => At(v, a + k))
  }

  lemma BytesConcat(v: Store, a: nat, n: nat, m: nat)
    requires v.Valid()
    ensures Bytes(v, a, n) + Bytes(v, a + n, m) == Bytes(v, a, n + m)
  {
  }

  /** The tail of a word, from the offset of an address on, is the bytes from that address on. */
  lemma WordTail(v: Store, word: seq<Byte>, x: nat, count: nat)
    requires v.Valid() && |word| == 8 && x % M64 % 8 + count <= 8
    requires forall i :: 0 <= i < 8 ==> word[i] == v.Peek(WordBase(x % M64) + i)
    ensures word[x % M64 % 8..x % M64 % 8 + count] == Bytes(v, x, count)
  {
    var o := x % M64 % 8;
    forall k | 0 <= k < count ensures word[o..o + count][k] == Bytes(v, x, count)[k] {
      WithinWord(x, k);
    }
  }

  /** Outputs the bytes at [arg1, arg1 + arg2) in order, for any alignment; memory keeps its contents. */
  method WriteOut(mem: ExtMem, arg1: nat, arg2: nat) returns (out: seq<Byte>)
    requires mem.Valid() && arg1 < M64
    modifies mem
    ensures mem.Valid() && out == Bytes(old(mem.View()), arg1, arg2)
    ensures forall b: nat :: mem.View().Peek(b) == old(mem.View()).Peek(b)
  {
    ghost var v := mem.View();
    out := [];
    var a, left := arg1, arg2;
    while left > 0
      invariant mem.Valid() && 0 <= left && |out| + left == arg2
      invariant a == (arg1 + |out|) % M64
      invariant out == Bytes(v, arg1, |out|)
      invariant forall b: nat :: mem.View().Peek(b) == v.Peek(b)
    {
      ghost var x := arg1 + |out|;
      var data := mem.ReadMem(a);
      var offset := a % 8;
      var count := 8 - offset;
      if count > left { count := left; }
      WordTail(v, data, x, count);
      BytesConcat(v, arg1, |out|, count);
      WordStep(x, count);
      out := out + data[offset..offset + count];
      a := (a + count) % M64;
      left := left - count;
    }
  }

  // ----- The device tree -----

  function PageBase(a: nat): nat {
    a / PAGE * PAGE
  }

  /** Whole pages further on, also around the end of the address space. */
  lemma PageBaseStep(a: nat, n: nat)
    requires n % PAGE == 0
    ensures PageBase((a + n) % M64) == (PageBase(a) + n) % M64 && (PageBase(a) + n) % M64 % PAGE == 0
  {
    var p, q := a / PAGE, n / PAGE;
    var k := M64 / PAGE;
    var d, r := (p + q) / k, (p + q) % k;
    assert a == PAGE * p + a % PAGE && n == PAGE * q;
    DivUnique(a + n, M64, d, PAGE * r + a % PAGE);
    DivUnique(PAGE * p + n, M64, d, PAGE * r);
    DivUnique(PAGE * r + a % PAGE, PAGE, r, a % PAGE);
  }

  lemma PageCopied(v: Store, w: Store, base: nat, blob: seq<Byte>, pos: nat, count: nat)
    requires v.Valid() && w.Valid() && pos + count <= |blob| <= M64 && count <= PAGE
    requires (base + pos) % M64 % PAGE == 0
    requires Holds(w, base, blob[..pos]) && SameOutside(w, v, base, base + pos)
    ensures var u := w.Poke((base + pos) % M64, blob[pos..pos + count]);
            Holds(u, base, blob[..pos + count]) && SameOutside(u, v, base, base + pos + count)
  {
    var a, chunk := (base + pos) % M64, blob[pos..pos + count];
    assert a + PAGE <= M64 by { assert a == PAGE * (a / PAGE); }
    Poked(w, base + pos, chunk);
    GrowHolds(v, w, w.Poke(a, chunk), base, pos, count, blob);
  }

  /** A write within a page, in terms of addresses that wrap around. */
  lemma Poked(v: Store, x: nat, bs: seq<Byte>)
    requires v.Valid() && x % M64 + |bs| <= M64 && x % M64 % PAGE + |bs| <= PAGE
    ensures var u := v.Poke(x % M64, bs); Holds(u, x, bs) && SameOutside(u, v, x, x + |bs|)
  {
    var a := x % M64;
    var u := v.Poke(a, bs);
    forall b: nat ensures u.Peek(b) == if a <= b < a + |bs| then bs[b - a] else v.Peek(b) {
      PeekPoke(v, a, bs, b);
    }
    PokeSeen(v, u, x, bs);
  }

  /** Copies page by page, always to the start of the page that contains the running address: the blob ends up,
      in order, from the start of dtb_addr's page on, and nothing else changes. */
  method CopyBlob(mem: ExtMem, dtbAddr: nat, blob: seq<Byte>)
    requires mem.Valid() && dtbAddr < M64 && |blob| < 0x1_0000_0000
    modifies mem
    ensures mem.Valid()
    ensures Holds(mem.View(), PageBase(dtbAddr), blob)
    ensures SameOutside(mem.View(), old(mem.View()), PageBase(dtbAddr), PageBase(dtbAddr) + |blob|)
  {
    ghost var v, base := mem.View(), PageBase(dtbAddr);
    var size, paddr, pos := |blob|, dtbAddr, 0;
    while size > 0
      invariant mem.Valid() && 0 <= size && pos + size == |blob| && 0 <= pos && paddr == (dtbAddr + pos) % M64
      invariant size > 0 ==> pos % PAGE == 0
      invariant Holds(mem.View(), base, blob[..pos])
      invariant SameOutside(mem.View(), v, base, base + pos)
    {
      var count := size;
      if count > PAGE { count := PAGE; }
      ghost var w := mem.View();
      PageBaseStep(dtbAddr, pos);
      mem.CopyIn(paddr / PAGE * PAGE, blob[pos..pos + count]);
      PageCopied(v, w, base, blob, pos, count);
      WordStep(dtbAddr + pos, count);
      size, paddr, pos := size - count, (paddr + count) % M64, pos + count;
    }
    assert blob[..pos] == blob;
  }

  /** w is v with the blob copied to `base`. */
  ghost predicate CopyOf(v: Store, w: Store, base: nat, blob: seq<Byte>)
    requires v.Valid()
  {
    w.Valid() && Holds(w, base, blob) && SameOutside(w, v, base, base + |blob|)
  }

  lemma PageOf(a: nat)
    requires a < M64
    ensures var base := PageBase(a);
            && base <= a < base + PAGE && base % M64 == base && base % PAGE == 0 && base + PAGE <= M64
            && (a % PAGE != 0 ==> base < a)
  {
  }

  lemma Misplaced(v: Store, dtbAddr: nat) returns (w: Store, blob: seq<Byte>)
    requires v.Valid() && dtbAddr < M64 && dtbAddr % PAGE != 0
    ensures CopyOf(v, w, PageBase(dtbAddr), blob) && !Holds(w, dtbAddr, blob)
  {
    var base := PageBase(dtbAddr);
    var b: Byte := if At(v, dtbAddr) == 0 then 1 else 0;
    PageOf(dtbAddr);
    Poked(v, base, [b]);
    w, blob := v.Poke(base, [b]), [b];
    BehindNear(dtbAddr, base);
    assert At(w, dtbAddr + 0) != blob[0];
  }

  /** So the device tree is at dtb_addr, for every blob, if and only if dtb_addr is page aligned. */
  lemma BlobInPlaceIffAligned(v: Store, dtbAddr: nat)
    requires v.Valid() && dtbAddr < M64
    ensures dtbAddr % PAGE == 0 <==>
            forall w, blob | CopyOf(v, w, PageBase(dtbAddr), blob) :: Holds(w, dtbAddr, blob)
  {
    if dtbAddr % PAGE == 0 {
      assert PageBase(dtbAddr) == dtbAddr;
    } else {
      var w, blob := Misplaced(v, dtbAddr);
    }
  }
}
