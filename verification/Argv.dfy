/** pass_elf_args (testbench/TestBench.cpp): the argc/argv block that a program finds at its initial stack pointer.
    Word writes go to the aligned word that contains the address, for any alignment of the block's address; addresses
    wrap around at 2^64. */
module Argv {
  import opened Arith
  import opened Axi
  import opened Memory
  import opened Space

  // ----- Little-endian words -----

  function Pow256(k: nat): (r: nat)
    ensures 0 < r
  {
    if k == 0 then 1 else 256 * Pow256(k - 1)
  }

  function LittleEndian(n: nat, k: nat): (bs: seq<Byte>)
    ensures |bs| == k
  {
    if k == 0 then [] else [n % 256] + LittleEndian(n / 256, k - 1)
  }

  function Value(bs: seq<Byte>): nat {
    if bs == [] then 0 else bs[0] + 256 * Value(bs[1..])
  }

  lemma ModStep(n: nat, m: nat)
    requires 0 < m
    ensures n % (256 * m) == n % 256 + 256 * (n / 256 % m)
  {
    var q := n / 256;
    Dist(256, m * (q / m), q % m);
    Assoc(256, m, q / m);
    Mono(256, q % m + 1, m);
    Dist(256, q % m, 1);
    DivUnique(n, 256 * m, q / m, n % 256 + 256 * (q % m));
  }

  /** The k low bytes of a number give it back modulo 256^k. */
  lemma {:induction false} ValueLittleEndian(n: nat, k: nat)
    ensures Value(LittleEndian(n, k)) == n % Pow256(k)
  {
    if k == 0 {
    } else {
      ValueLittleEndian(n / 256, k - 1);
      ModStep(n, Pow256(k - 1));
    }
  }

  lemma WordRange()
    ensures Pow256(8) == M64
  {
    assert Pow256(4) == 0x1_0000_0000;
    assert Pow256(8) == 256 * 256 * 256 * 256 * Pow256(4);
  }

  // ----- The argv block -----

  type Str = seq<Byte>

  const SLASH: Byte := 47

  /** The index behind the last slash among the first n characters, or 0. */
  function NameStart(path: Str, n: nat): (k: nat)
    requires n <= |path|
    ensures k <= n && (0 < k ==> path[k - 1] == SLASH) && forall i :: k <= i < n ==> path[i] != SLASH
  {
    if n == 0 then 0 else if path[n - 1] == SLASH then n else NameStart(path, n - 1)
  }

  /** `name` is the part of the path behind its last slash. */
  ghost predicate NameOf(path: Str, name: Str) {
    && |name| <= |path| && name == path[|path| - |name|..] && SLASH !in name
    && (|name| < |path| ==> path[|path| - |name| - 1] == SLASH)
  }

  /** The part after the last slash, or the whole path if there is none. */
  function BaseName(path: Str): (name: Str)
    ensures NameOf(path, name)
  {
    path[NameStart(path, |path|)..]
  }

  /** Words that a string and its terminator take. */
  function Words(s: Str): nat {
    |s| / 8 + 1
  }

  /** A string with its terminator, padded to whole words. */
  function Padded(s: Str): (p: seq<Byte>)
    ensures |p| == 8 * Words(s)
  {
    s + seq<Byte>(8 * Words(s) - |s|, _ => 0)
  }

  // ----- The layout -----

  /** The next multiple of eight. */
  function AlignUp(x: nat): nat {
    (x + 7) / 8 * 8
  }

  /** The address of string i as the code computes it: behind the argv array, then each string behind the last one,
      aligned. Not reduced modulo 2^64. */
  function StringAddr(args: seq<Str>, addr: nat, i: nat): nat
    requires i <= |args|
  {
    if i == 0 then addr + 16 + 8 * (|args| + 1)
    else AlignUp(StringAddr(args, addr, i - 1) + 8 * Words(args[i - 1]))
  }

  /** Where string i lies. */
  function Place(args: seq<Str>, addr: nat, i: nat): nat
    requires i <= |args|
  {
    WordBase(StringAddr(args, addr, i))
  }

  /** Where entry i of the argv array lies. */
  function Slot(addr: nat, i: nat): nat {
    WordBase(addr) + 16 + 8 * i
  }

  /** The first address behind the block: header, argc+1 pointers, strings. */
  function BlockEnd(args: seq<Str>, addr: nat): nat {
    Place(args, addr, |args|)
  }

  /** The block is not longer than the address space. */
  predicate Fits(args: seq<Str>, addr: nat) {
    BlockEnd(args, addr) <= WordBase(addr) + M64
  }

  lemma WordBaseStep(x: nat, k: nat)
    ensures WordBase(x + 8 * k) == WordBase(x) + 8 * k && WordBase(x) + x % 8 == x
  {
    DivUnique(x + 8 * k, 8, x / 8 + k, x % 8);
  }

  lemma AlignUpIsAligned(x: nat)
    ensures x <= AlignUp(x) < x + 8 && WordBase(AlignUp(x)) == AlignUp(x) && AlignUp(x) % 8 == 0
  {
  }

  /** Only the first string can lie off its address: by the misalignment of the block. */
  lemma PlaceOf(args: seq<Str>, addr: nat, i: nat)
    requires i <= |args|
    ensures i == 0 ==> Place(args, addr, 0) == Slot(addr, |args| + 1) && StringAddr(args, addr, 0) == Place(args, addr, 0) + addr % 8
    ensures i > 0 ==> Place(args, addr, i) == StringAddr(args, addr, i)
  {
    if i == 0 {
      WordBaseStep(addr, 2 + |args| + 1);
    } else {
      AlignUpIsAligned(StringAddr(args, addr, i - 1) + 8 * Words(args[i - 1]));
    }
  }

  lemma PlaceStep(args: seq<Str>, addr: nat, i: nat)
    requires i < |args|
    ensures Place(args, addr, i) + 8 * Words(args[i]) <= Place(args, addr, i + 1)
  {
    var s := StringAddr(args, addr, i);
    WordBaseStep(s, 0);
    AlignUpIsAligned(s + 8 * Words(args[i]));
  }

  lemma {:induction false} PlaceMonotone(args: seq<Str>, addr: nat, i: nat, j: nat)
    requires i <= j <= |args|
    ensures Place(args, addr, i) <= Place(args, addr, j)
    ensures i < j ==> Place(args, addr, i) + 8 * Words(args[i]) <= Place(args, addr, j)
    decreases j
  {
    if i == j {
    } else {
      PlaceMonotone(args, addr, i, j - 1);
      PlaceStep(args, addr, j - 1);
    }
  }

  /** No two slots of the block overlap: the header ends where the argv array starts, the array with its null pointer
      ends where the strings start, string i ends before string j starts, and all end within the block. */
  lemma NoOverlap(args: seq<Str>, addr: nat, i: nat, j: nat)
    requires i < j < |args|
    ensures
      && WordBase(addr) + 16 <= Slot(addr, i) < Slot(addr, i) + 8 <= Slot(addr, j)
      && Slot(addr, |args|) + 8 <= Place(args, addr, i)
      && Place(args, addr, i) + |args[i]| + 1 <= Place(args, addr, j)
      && Place(args, addr, j) + |args[j]| + 1 <= BlockEnd(args, addr)
  {
    Within(args, addr, i);
    PlaceMonotone(args, addr, i, j);
    Within(args, addr, j);
  }

  /** Where the parts of entry i lie. */
  lemma Within(args: seq<Str>, addr: nat, i: nat)
    requires i < |args|
    ensures Slot(addr, i) + 8 <= Slot(addr, |args|) && Slot(addr, |args|) + 8 <= Place(args, addr, i)
    ensures Place(args, addr, i) + 8 * Words(args[i]) <= Place(args, addr, i + 1) <= BlockEnd(args, addr)
  {
    PlaceOf(args, addr, 0);
    PlaceMonotone(args, addr, 0, i);
    PlaceStep(args, addr, i);
    PlaceMonotone(args, addr, i + 1, |args|);
  }

  // ----- Writing it -----

  ghost predicate WordAt(v: Store, a: nat, n: nat)
    requires v.Valid()
  {
    Holds(v, a, LittleEndian(n, 8))
  }

  lemma WordWrap(x: nat)
    ensures WordBase(x % M64) == WordBase(x) % M64 && WordBase(x) % M64 + 8 <= M64
  {
    var q, a := x / M64, x % M64;
    assert x == M64 * q + a;
    WordBaseStep(a, M64 / 8 * q);
    assert WordBase(x) == M64 * q + WordBase(a);
    assert WordBase(a) + 8 <= M64;
    DivUnique(WordBase(x), M64, q, WordBase(a));
  }

  /** write_mem: eight bytes go to the aligned word of the address, and nothing else changes. */
  method PutBytes(mem: ExtMem, x: nat, bs: seq<Byte>)
    requires mem.Valid() && |bs| == 8
    modifies mem
    ensures mem.Valid() && Holds(mem.View(), WordBase(x), bs)
    ensures SameOutside(mem.View(), old(mem.View()), WordBase(x), WordBase(x) + 8)
  {
    ghost var v := mem.View();
    WordWrap(x);
    mem.WriteMem(x % M64, bs);
    PokeSeen(v, mem.View(), WordBase(x), bs);
  }

  method PutWord(mem: ExtMem, x: nat, n: nat)
    requires mem.Valid()
    modifies mem
    ensures mem.Valid() && WordAt(mem.View(), WordBase(x), n)
    ensures SameOutside(mem.View(), old(mem.View()), WordBase(x), WordBase(x) + 8)
  {
    PutBytes(mem, x, LittleEndian(n, 8));
  }

  /** The next word of a string: up to eight bytes of the string and its terminator, then zeros. */
  function StringWord(s: Str, pos: nat): (data: seq<Byte>)
    requires pos <= |s|
    ensures |data| == 8
  {
    var rest := (s + [0])[pos..];
    if |rest| > 8 then rest[..8] else rest + seq<Byte>(8 - |rest|, _ => 0)
  }

  lemma StringWordPadded(s: Str, k: nat)
    requires k < Words(s)
    ensures StringWord(s, 8 * k) == Padded(s)[8 * k..8 * k + 8]
  {
  }

  /** The first k words of the string have been written at `base`. */
  ghost predicate Partly(v: Store, w: Store, base: nat, s: Str, k: nat)
    requires k <= Words(s)
  {
    && v.Valid() && w.Valid()
    && Holds(w, base, Padded(s)[..8 * k]) && SameOutside(w, v, base, base + 8 * k)
  }

  lemma StringGrows(v: Store, w: Store, u: Store, base: nat, s: Str, k: nat)
    requires k < Words(s) && 8 * Words(s) <= M64 && Partly(v, w, base, s, k)
    requires u.Valid() && Holds(u, base + 8 * k, StringWord(s, 8 * k)) && SameOutside(u, w, base + 8 * k, base + 8 * k + 8)
    ensures Partly(v, u, base, s, k + 1)
  {
    StringWordPadded(s, k);
    GrowHolds(v, w, u, base, 8 * k, 8, Padded(s));
  }

  lemma StringDone(v: Store, w: Store, base: nat, s: Str)
    requires Partly(v, w, base, s, Words(s))
    ensures Holds(w, base, Padded(s)) && SameOutside(w, v, base, base + 8 * Words(s))
  {
    assert Padded(s)[..8 * Words(s)] == Padded(s);
  }

  /** The inner loop: the string and its terminator, a word at a time, the last word padded with zeros; then the
      address is aligned for the next string. */
  method PutString(mem: ExtMem, a: nat, s: Str) returns (next: nat)
    requires mem.Valid() && 8 * Words(s) <= M64
    modifies mem
    ensures mem.Valid() && next == AlignUp(a + 8 * Words(s)) && Holds(mem.View(), WordBase(a), Padded(s))
    ensures SameOutside(mem.View(), old(mem.View()), WordBase(a), WordBase(a) + 8 * Words(s))
  {
    ghost var v, k, base := mem.View(), 0, WordBase(a);
    next := a;
    var len, pos := |s| + 1, 0;
    while len > 0
      invariant mem.Valid() && 0 <= pos && 0 <= len && pos + len == |s| + 1
      invariant k <= Words(s) && next == a + 8 * k && if len > 0 then pos == 8 * k else k == Words(s)
      invariant Partly(v, mem.View(), base, s, k)
    {
      ghost var w := mem.View();
      var bytes := if len > 8 then 8 else len;
      WordBaseStep(a, k);
      PutBytes(mem, next, StringWord(s, pos));
      StringGrows(v, w, mem.View(), base, s, k);
      next, pos, len, k := next + 8, pos + bytes, len - bytes, k + 1;
    }
    StringDone(v, mem.View(), base, s);
    next := (next + 7) / 8 * 8;
  }

  /** Entry i of the argv array and the string it stands for. */
  ghost predicate ArgAt(v: Store, args: seq<Str>, addr: nat, i: nat)
    requires v.Valid() && i < |args|
  {
    && WordAt(v, Slot(addr, i), StringAddr(args, addr, i))
    && Holds(v, Place(args, addr, i), Padded(args[i]))
  }

  /** A change apart from both parts of an entry keeps it. */
  lemma KeepArg(v: Store, w: Store, args: seq<Str>, addr: nat, i: nat, lo: nat, hi: nat)
    requires v.Valid() && w.Valid() && i < |args| && ArgAt(v, args, addr, i) && SameOutside(w, v, lo, hi)
    requires Apart(Slot(addr, i), 8, lo, hi) && Apart(Place(args, addr, i), 8 * Words(args[i]), lo, hi)
    ensures ArgAt(w, args, addr, i)
  {
    KeepHolds(v, w, lo, hi, Slot(addr, i), LittleEndian(StringAddr(args, addr, i), 8));
    KeepHolds(v, w, lo, hi, Place(args, addr, i), Padded(args[i]));
  }

  lemma EarlierEntryKept(v: Store, w: Store, u: Store, args: seq<Str>, addr: nat, i: nat, k: nat)
    requires v.Valid() && w.Valid() && u.Valid() && k < i < |args| && Fits(args, addr) && ArgAt(v, args, addr, k)
    requires SameOutside(w, v, Slot(addr, i), Slot(addr, i) + 8)
    requires SameOutside(u, w, Place(args, addr, i), Place(args, addr, i) + 8 * Words(args[i]))
    ensures ArgAt(u, args, addr, k)
  {
    Within(args, addr, k);
    Within(args, addr, i);
    PlaceMonotone(args, addr, k, i);
    KeepArg(v, w, args, addr, k, Slot(addr, i), Slot(addr, i) + 8);
    KeepArg(w, u, args, addr, k, Place(args, addr, i), Place(args, addr, i) + 8 * Words(args[i]));
  }

  lemma EntryWritten(v: Store, w: Store, u: Store, args: seq<Str>, addr: nat, i: nat)
    requires v.Valid() && w.Valid() && u.Valid() && i < |args| && Fits(args, addr)
    requires forall k :: 0 <= k < i ==> ArgAt(v, args, addr, k)
    requires SameOutside(w, v, Slot(addr, i), Slot(addr, i) + 8) && WordAt(w, Slot(addr, i), StringAddr(args, addr, i))
    requires SameOutside(u, w, Place(args, addr, i), Place(args, addr, i) + 8 * Words(args[i]))
    requires Holds(u, Place(args, addr, i), Padded(args[i]))
    ensures forall k :: 0 <= k <= i ==> ArgAt(u, args, addr, k)
  {
    forall k | 0 <= k < i ensures ArgAt(u, args, addr, k) {
      EarlierEntryKept(v, w, u, args, addr, i, k);
    }
    Within(args, addr, i);
    assert ArgAt(u, args, addr, i) by {
      KeepHolds(w, u, Place(args, addr, i), Place(args, addr, i) + 8 * Words(args[i]), Slot(addr, i),
                LittleEndian(StringAddr(args, addr, i), 8));
    }
  }

  lemma EntryWithin(v: Store, w: Store, u: Store, args: seq<Str>, addr: nat, i: nat)
    requires v.Valid() && w.Valid() && u.Valid() && i < |args| && Fits(args, addr)
    requires SameOutside(w, v, Slot(addr, i), Slot(addr, i) + 8)
    requires SameOutside(u, w, Place(args, addr, i), Place(args, addr, i) + 8 * Words(args[i]))
    ensures SameOutside(u, v, Slot(addr, 0), BlockEnd(args, addr))
  {
    Within(args, addr, i);
    SameOutsideBoth(v, w, u, Slot(addr, 0), Slot(addr, i), Slot(addr, i) + 8, Place(args, addr, i),
                    Place(args, addr, i) + 8 * Words(args[i]), BlockEnd(args, addr));
  }

  /** Entry i: the pointer, then the string. */
  method PutArg(mem: ExtMem, args: seq<Str>, addr: nat, i: nat, at: nat) returns (next: nat)
    requires mem.Valid() && Fits(args, addr) && i < |args| && at == StringAddr(args, addr, i)
    requires forall k :: 0 <= k < i ==> ArgAt(mem.View(), args, addr, k)
    modifies mem
    ensures mem.Valid() && next == StringAddr(args, addr, i + 1)
    ensures forall k :: 0 <= k <= i ==> ArgAt(mem.View(), args, addr, k)
    ensures SameOutside(mem.View(), old(mem.View()), Slot(addr, 0), BlockEnd(args, addr))
  {
    ghost var v := mem.View();
    Within(args, addr, i);
    WordBaseStep(addr, 2 + i);
    PutWord(mem, addr + 16 + 8 * i, at);
    ghost var w := mem.View();
    next := PutString(mem, at, args[i]);
    EntryWritten(v, w, mem.View(), args, addr, i);
    EntryWithin(v, w, mem.View(), args, addr, i);
  }

  /** The list a program must find: the name of the first ELF file, if there is one, then the arguments given. */
  ghost predicate Invocation(elf: seq<Str>, elfArgs: seq<Str>, list: seq<Str>) {
    var n := if elf == [] then 0 else 1;
    && |list| == n + |elfArgs|
    && (elf != [] ==> NameOf(elf[0], list[0]))
    && forall k :: 0 <= k < |elfArgs| ==> list[n + k] == elfArgs[k]
  }

  lemma NameUnique(path: Str, a: Str, b: Str)
    requires NameOf(path, a) && NameOf(path, b)
    ensures a == b
  {
    NotLonger(path, a, b);
    NotLonger(path, b, a);
  }

  lemma NotLonger(path: Str, a: Str, b: Str)
    requires NameOf(path, a) && NameOf(path, b)
    ensures |a| <= |b|
  {
    if |b| < |path| { NoSlashFrom(path, a, |path| - |b| - 1); }
  }

  lemma NoSlashFrom(path: Str, name: Str, k: nat)
    requires NameOf(path, name) && k < |path|
    ensures |path| - |name| <= k ==> path[k] != SLASH
  {
    if |path| - |name| <= k { assert path[k] == name[k - (|path| - |name|)]; }
  }

  /** There is exactly one such list. */
  lemma InvocationUnique(elf: seq<Str>, elfArgs: seq<Str>, a: seq<Str>, b: seq<Str>)
    requires Invocation(elf, elfArgs, a) && Invocation(elf, elfArgs, b)
    ensures a == b
  {
    var n := if elf == [] then 0 else 1;
    if n == 1 { NameUnique(elf[0], a[0], b[0]); }
    forall k | 0 <= k < |a| ensures a[k] == b[k] {
      assert k >= n ==> a[n + (k - n)] == elfArgs[k - n] == b[n + (k - n)];
    }
  }

  function ArgList(elf: seq<Str>, elfArgs: seq<Str>): (list: seq<Str>)
    ensures Invocation(elf, elfArgs, list)
  {
    if elf == [] then elfArgs else [BaseName(elf[0])] + elfArgs
  }

  /** The argv array with its null pointer, and the strings. */
  ghost predicate Array(v: Store, args: seq<Str>, addr: nat)
    requires v.Valid()
  {
    (forall i :: 0 <= i < |args| ==> ArgAt(v, args, addr, i)) && WordAt(v, Slot(addr, |args|), 0)
  }

  /** The finished block. Without any argument only the two header words are written, both zero. */
  ghost predicate Block(v: Store, args: seq<Str>, addr: nat)
    requires v.Valid()
  {
    && WordAt(v, WordBase(addr), |args|)
    && WordAt(v, WordBase(addr) + 8, if args == [] then 0 else addr + 16)
    && (args != [] ==> Array(v, args, addr))
  }

  lemma ArrayEnded(v: Store, w: Store, u: Store, args: seq<Str>, addr: nat)
    requires v.Valid() && w.Valid() && u.Valid() && args != [] && Fits(args, addr)
    requires forall k :: 0 <= k < |args| ==> ArgAt(w, args, addr, k)
    requires SameOutside(w, v, Slot(addr, 0), BlockEnd(args, addr))
    requires WordAt(u, Slot(addr, |args|), 0) && SameOutside(u, w, Slot(addr, |args|), Slot(addr, |args|) + 8)
    ensures Array(u, args, addr) && SameOutside(u, v, Slot(addr, 0), BlockEnd(args, addr))
  {
    forall k | 0 <= k < |args| ensures ArgAt(u, args, addr, k) {
      Within(args, addr, k);
      KeepArg(w, u, args, addr, k, Slot(addr, |args|), Slot(addr, |args|) + 8);
    }
    Within(args, addr, 0);
    SameOutsideBoth(v, w, u, Slot(addr, 0), Slot(addr, 0), BlockEnd(args, addr), Slot(addr, |args|),
                    Slot(addr, |args|) + 8, BlockEnd(args, addr));
  }

  lemma SameOutsideAgain(v: Store, w: Store, u: Store, lo: nat, hi: nat)
    requires v.Valid() && w.Valid() && u.Valid() && lo <= hi <= lo + M64
    requires SameOutside(w, v, lo, hi) && SameOutside(u, w, lo, hi)
    ensures SameOutside(u, v, lo, hi)
  {
    SameOutsideBoth(v, w, u, lo, lo, hi, lo, hi, hi);
  }

  /** The loop over the arguments. */
  method PutArgs(mem: ExtMem, args: seq<Str>, addr: nat)
    requires mem.Valid() && args != [] && Fits(args, addr)
    modifies mem
    ensures mem.Valid() && forall k :: 0 <= k < |args| ==> ArgAt(mem.View(), args, addr, k)
    ensures SameOutside(mem.View(), old(mem.View()), Slot(addr, 0), BlockEnd(args, addr))
  {
    ghost var v, end := mem.View(), BlockEnd(args, addr);
    Within(args, addr, 0);
    var at := addr + 16 + 8 * (|args| + 1);
    for i := 0 to |args|
      invariant mem.Valid() && at == StringAddr(args, addr, i)
      invariant forall k :: 0 <= k < i ==> ArgAt(mem.View(), args, addr, k)
      invariant SameOutside(mem.View(), v, Slot(addr, 0), end)
    {
      ghost var w := mem.View();
      at := PutArg(mem, args, addr, i, at);
      SameOutsideAgain(v, w, mem.View(), Slot(addr, 0), end);
    }
  }

  /** The arguments and the terminator of the argv array. */
  method PutArgv(mem: ExtMem, args: seq<Str>, addr: nat)
    requires mem.Valid() && args != [] && Fits(args, addr)
    modifies mem
    ensures mem.Valid() && Array(mem.View(), args, addr)
    ensures SameOutside(mem.View(), old(mem.View()), Slot(addr, 0), BlockEnd(args, addr))
  {
    ghost var v := mem.View();
    PutArgs(mem, args, addr);
    ghost var w := mem.View();
    WordBaseStep(addr, 2 + |args|);
    PutWord(mem, addr + 16 + 8 * |args|, 0);
    ArrayEnded(v, w, mem.View(), args, addr);
  }

  method PutHeader(mem: ExtMem, addr: nat, argc: nat, argv: nat)
    requires mem.Valid()
    modifies mem
    ensures mem.Valid() && WordAt(mem.View(), WordBase(addr), argc) && WordAt(mem.View(), WordBase(addr) + 8, argv)
    ensures SameOutside(mem.View(), old(mem.View()), WordBase(addr), WordBase(addr) + 16)
  {
    ghost var v, a := mem.View(), WordBase(addr);
    PutWord(mem, addr, argc);
    ghost var w := mem.View();
    WordBaseStep(addr, 1);
    PutWord(mem, addr + 8, argv);
    KeepHolds(w, mem.View(), a + 8, a + 16, a, LittleEndian(argc, 8));
    SameOutsideBoth(v, w, mem.View(), a, a, a + 8, a + 8, a + 16, a + 16);
  }

  /** Some string of the list, or the path, has a NUL in it. */
  ghost predicate HasNul(elf: seq<Str>, elfArgs: seq<Str>) {
    (elf != [] && 0 in elf[0]) || exists k :: 0 <= k < |elfArgs| && 0 in elfArgs[k]
  }

  /** pass_elf_args: the block is complete and nothing outside it changes. From an 8-aligned address a program then reads
      exactly the invocation: argc strings, the name of the ELF file first if there is one, then the arguments given. */
  method PassElfArgs(mem: ExtMem, elf: seq<Str>, elfArgs: seq<Str>, addr: nat)
    requires mem.Valid() && forall list :: Invocation(elf, elfArgs, list) ==> Fits(list, addr)
    modifies mem
    ensures mem.Valid()
    ensures forall list :: Invocation(elf, elfArgs, list) ==>
              && Block(mem.View(), list, addr)
              && SameOutside(mem.View(), old(mem.View()), WordBase(addr), BlockEnd(list, addr))
    ensures addr % 8 == 0 && !HasNul(elf, elfArgs) ==>
              forall list :: Reads(mem.View(), addr, list) <==> Invocation(elf, elfArgs, list)
  {
    var args := ArgList(elf, elfArgs);
    ghost var v := mem.View();
    var argc, argv := 0, 0;
    if args != [] {
      argc, argv := |args|, addr + 16;
      PutArgv(mem, args, addr);
    }
    ghost var w := mem.View();
    PutHeader(mem, addr, argc, argv);
    HeaderWritten(v, w, mem.View(), args, addr);
    ghost var u := mem.View();
    forall list | Invocation(elf, elfArgs, list) ensures list == args {
      InvocationUnique(elf, elfArgs, list, args);
    }
    if addr % 8 == 0 && !HasNul(elf, elfArgs) { InvocationRead(u, elf, elfArgs, args, addr); }
  }

  lemma InvocationRead(v: Store, elf: seq<Str>, elfArgs: seq<Str>, args: seq<Str>, addr: nat)
    requires v.Valid() && Block(v, args, addr) && Fits(args, addr) && addr % 8 == 0
    requires Invocation(elf, elfArgs, args) && !HasNul(elf, elfArgs)
    ensures forall list :: Reads(v, addr, list) <==> Invocation(elf, elfArgs, list)
  {
    NoNulIn(elf, elfArgs, args);
    forall list ensures Reads(v, addr, list) <==> Invocation(elf, elfArgs, list) {
      ArgvRoundTrip(v, args, addr, list);
      if Invocation(elf, elfArgs, list) { InvocationUnique(elf, elfArgs, list, args); }
    }
  }

  lemma NoNulIn(elf: seq<Str>, elfArgs: seq<Str>, list: seq<Str>)
    requires Invocation(elf, elfArgs, list) && !HasNul(elf, elfArgs)
    ensures forall k :: 0 <= k < |list| ==> 0 !in list[k]
  {
    var n := if elf == [] then 0 else 1;
    forall k | 0 <= k < |list| ensures 0 !in list[k] {
      assert k >= n ==> list[n + (k - n)] == elfArgs[k - n];
    }
  }

  lemma HeaderWritten(v: Store, w: Store, u: Store, args: seq<Str>, addr: nat)
    requires v.Valid() && w.Valid() && u.Valid() && Fits(args, addr)
    requires SameOutside(u, w, WordBase(addr), WordBase(addr) + 16)
    requires WordAt(u, WordBase(addr), |args|) && WordAt(u, WordBase(addr) + 8, if args == [] then 0 else addr + 16)
    requires if args == [] then w == v
             else Array(w, args, addr) && SameOutside(w, v, Slot(addr, 0), BlockEnd(args, addr))
    ensures Block(u, args, addr) && SameOutside(u, v, WordBase(addr), BlockEnd(args, addr))
  {
    var a, end := WordBase(addr), BlockEnd(args, addr);
    PlaceOf(args, addr, 0);
    PlaceMonotone(args, addr, 0, |args|);
    if args == [] {
      SameOutsideBoth(v, w, u, a, a, a, a, a + 16, end);
    } else {
      forall k | 0 <= k < |args| ensures ArgAt(u, args, addr, k) {
        Within(args, addr, k);
        KeepArg(w, u, args, addr, k, a, a + 16);
      }
      KeepHolds(w, u, a, a + 16, Slot(addr, |args|), LittleEndian(0, 8));
      SameOutsideBoth(v, w, u, a, Slot(addr, 0), end, a, a + 16, end);
    }
  }

  // ----- Reading it back -----

  /** The C string at address a: `s` has no NUL, and a NUL follows it. */
  ghost predicate CString(v: Store, a: nat, s: Str)
    requires v.Valid()
  {
    0 !in s && Holds(v, a, s) && At(v, a + |s|) == 0
  }

  function WordBytes(v: Store, a: nat): (bs: seq<Byte>)
    requires v.Valid()
    ensures |bs| == 8 && forall k :: 0 <= k < 8 ==> bs[k] == At(v, a + k)
  {
    seq<Byte>(8, k requires 0 <= k < 8 => At(v, a + k))
  }

  /** The 64-bit word a program loads from address a. */
  function WordValue(v: Store, a: nat): nat
    requires v.Valid()
  {
    Value(WordBytes(v, a))
  }

  lemma WordAtValue(v: Store, a: nat, n: nat)
    requires v.Valid() && WordAt(v, a, n)
    ensures WordValue(v, a) == n % M64
  {
    assert WordBytes(v, a) == LittleEndian(n, 8);
    WordRange();
    ValueLittleEndian(n, 8);
  }

  lemma WordValueMod(v: Store, x: nat, k: nat)
    requires v.Valid()
    ensures WordValue(v, x % M64 + k) == WordValue(v, x + k)
  {
    var a, b := WordBytes(v, x % M64 + k), WordBytes(v, x + k);
    forall i | 0 <= i < 8 ensures a[i] == b[i] { AtMod(v, x, k + i); }
    assert a == b;
  }

  /** Where a program finds a string does not depend on the multiple of 2^64. */
  lemma CStringMod(v: Store, x: nat, s: Str)
    requires v.Valid()
    ensures CString(v, x % M64, s) <==> CString(v, x, s)
  {
    HoldsMod(v, x, s);
    AtMod(v, x, |s|);
  }

  lemma HoldsMod(v: Store, x: nat, bs: seq<Byte>)
    requires v.Valid()
    ensures Holds(v, x % M64, bs) <==> Holds(v, x, bs)
  {
    if Holds(v, x, bs) {
      forall k | 0 <= k < |bs| ensures At(v, x % M64 + k) == bs[k] { AtMod(v, x, k); }
    }
    if Holds(v, x % M64, bs) {
      forall k | 0 <= k < |bs| ensures At(v, x + k) == bs[k] { AtMod(v, x, k); }
    }
  }

  /** What a program that starts with its stack pointer at addr finds: argc, argv, argc pointers to C strings, and
      the null pointer that ends them. */
  ghost predicate Reads(v: Store, addr: nat, list: seq<Str>)
    requires v.Valid()
  {
    && WordValue(v, addr) == |list|
    && (list != [] ==>
          var argv := WordValue(v, addr + 8);
          && WordValue(v, argv + 8 * |list|) == 0
          && forall i :: 0 <= i < |list| ==> ReadsArg(v, argv, list, i))
  }

  ghost predicate ReadsArg(v: Store, argv: nat, list: seq<Str>, i: nat)
    requires v.Valid() && i < |list|
  {
    CString(v, WordValue(v, argv + 8 * i), list[i])
  }

  lemma NoNulInside(v: Store, a: nat, s: Str, k: nat)
    requires v.Valid() && CString(v, a, s)
    ensures k < |s| ==> At(v, a + k) != 0
  {
    if k < |s| { assert s[k] in s; }
  }

  /** Memory spells at most one C string at an address. */
  lemma CStringUnique(v: Store, a: nat, s: Str, t: Str)
    requires v.Valid() && CString(v, a, s) && CString(v, a, t)
    ensures s == t
  {
    NoNulInside(v, a, s, |t|);
    NoNulInside(v, a, t, |s|);
  }

  /** A stored string spells itself where it lies. */
  lemma Spelled(v: Store, a: nat, s: Str)
    requires v.Valid() && Holds(v, a, Padded(s)) && 0 !in s
    ensures CString(v, a, s)
  {
    var bs := Padded(s);
    forall k | 0 <= k < |s| ensures At(v, a + k) == s[k] { assert bs[k] == s[k]; }
    assert bs[|s|] == 0;
  }

  /** Read from the middle, it spells its own tail, or nothing. */
  lemma SpelledFrom(v: Store, a: nat, s: Str, o: nat)
    requires v.Valid() && Holds(v, a, Padded(s)) && 0 !in s && o < 8
    ensures CString(v, a + o, if o <= |s| then s[o..] else [])
  {
    var bs := Padded(s);
    if o <= |s| {
      var t := s[o..];
      forall k | 0 <= k < |t| ensures At(v, a + o + k) == t[k] { assert bs[o + k] == t[k]; }
      assert bs[o + |t|] == 0;
    } else {
      assert bs[o] == 0;
    }
  }

  /** What is read through the pointer in slot i. */
  lemma Pointer(v: Store, args: seq<Str>, addr: nat, i: nat, t: Str)
    requires v.Valid() && i < |args| && WordAt(v, Slot(addr, i), StringAddr(args, addr, i))
    ensures CString(v, WordValue(v, Slot(addr, i)), t) <==> CString(v, StringAddr(args, addr, i), t)
  {
    WordAtValue(v, Slot(addr, i), StringAddr(args, addr, i));
    CStringMod(v, StringAddr(args, addr, i), t);
  }

  lemma PointerSpells(v: Store, args: seq<Str>, addr: nat, i: nat)
    requires v.Valid() && i < |args| && ArgAt(v, args, addr, i) && 0 !in args[i] && (i > 0 || addr % 8 == 0)
    ensures CString(v, WordValue(v, Slot(addr, i)), args[i])
  {
    PlaceOf(args, addr, i);
    Spelled(v, Place(args, addr, i), args[i]);
    Pointer(v, args, addr, i, args[i]);
  }

  /** For any alignment of the block: each pointer, read from its slot, points to its string if and only if the block
      is 8-aligned, or there is no first string to miss. */
  lemma PointersRightIff(v: Store, args: seq<Str>, addr: nat)
    requires v.Valid() && args != [] && Array(v, args, addr) && forall i :: 0 <= i < |args| ==> 0 !in args[i]
    ensures (forall i :: 0 <= i < |args| ==> CString(v, WordValue(v, Slot(addr, i)), args[i])) <==>
            addr % 8 == 0 || args[0] == []
  {
    forall i | 0 <= i < |args| && (i > 0 || addr % 8 == 0)
      ensures CString(v, WordValue(v, Slot(addr, i)), args[i])
    {
      PointerSpells(v, args, addr, i);
    }
    FirstPointer(v, args, addr);
  }

  lemma FirstPointer(v: Store, args: seq<Str>, addr: nat)
    requires v.Valid() && args != [] && ArgAt(v, args, addr, 0) && 0 !in args[0]
    ensures CString(v, WordValue(v, Slot(addr, 0)), args[0]) <==> addr % 8 == 0 || args[0] == []
  {
    Pointer(v, args, addr, 0, args[0]);
    PlaceOf(args, addr, 0);
    OffsetSpells(v, Place(args, addr, 0), args[0], addr % 8);
  }

  lemma OffsetSpells(v: Store, a: nat, s: Str, o: nat)
    requires v.Valid() && Holds(v, a, Padded(s)) && 0 !in s && o < 8
    ensures CString(v, a + o, s) <==> o == 0 || s == []
  {
    SpelledFrom(v, a, s, o);
    if CString(v, a + o, s) {
      CStringUnique(v, a + o, s, if o <= |s| then s[o..] else []);
    }
  }

  /** The argv round trip, for an 8-aligned address: from the block written for any list of NUL-free strings, whatever
      the lengths, a program reads back exactly that list, and no other. */
  lemma ArgvRoundTrip(v: Store, args: seq<Str>, addr: nat, list: seq<Str>)
    requires v.Valid() && Block(v, args, addr) && Fits(args, addr) && addr % 8 == 0
    requires forall i :: 0 <= i < |args| ==> 0 !in args[i]
    ensures Reads(v, addr, list) <==> list == args
  {
    HeaderReads(v, args, addr);
    if args == [] {
    } else {
      var argv := WordValue(v, addr + 8);
      ArrayReads(v, args, addr, argv);
      if Reads(v, addr, list) { SameList(v, argv, args, list); }
    }
  }

  lemma HeaderReads(v: Store, args: seq<Str>, addr: nat)
    requires v.Valid() && Block(v, args, addr) && Fits(args, addr) && addr % 8 == 0
    ensures WordValue(v, addr) == |args| && (args != [] ==> WordValue(v, addr + 8) == (addr + 16) % M64)
  {
    CountFits(args, addr);
    HeaderWords(v, addr, |args|, if args == [] then 0 else addr + 16);
  }

  lemma HeaderWords(v: Store, addr: nat, argc: nat, argv: nat)
    requires v.Valid() && addr % 8 == 0 && argc < M64
    requires WordAt(v, WordBase(addr), argc) && WordAt(v, WordBase(addr) + 8, argv)
    ensures WordValue(v, addr) == argc && WordValue(v, addr + 8) == argv % M64
  {
    WordAtValue(v, WordBase(addr), argc);
    WordAtValue(v, WordBase(addr) + 8, argv);
    WordBaseStep(addr, 0);
  }

  lemma SlotReads(v: Store, addr: nat, argv: nat, k: nat)
    requires v.Valid() && addr % 8 == 0 && argv == (addr + 16) % M64
    ensures WordValue(v, argv + 8 * k) == WordValue(v, Slot(addr, k))
  {
    WordValueMod(v, addr + 16, 8 * k);
    WordBaseStep(addr, 0);
  }

  lemma ArgReads(v: Store, args: seq<Str>, addr: nat, argv: nat, i: nat)
    requires v.Valid() && i < |args| && ArgAt(v, args, addr, i) && 0 !in args[i]
    requires addr % 8 == 0 && argv == (addr + 16) % M64
    ensures ReadsArg(v, argv, args, i)
  {
    SlotReads(v, addr, argv, i);
    PointerSpells(v, args, addr, i);
  }

  lemma ArrayReads(v: Store, args: seq<Str>, addr: nat, argv: nat)
    requires v.Valid() && Array(v, args, addr) && addr % 8 == 0 && argv == (addr + 16) % M64
    requires forall i :: 0 <= i < |args| ==> 0 !in args[i]
    ensures WordValue(v, argv + 8 * |args|) == 0 && forall i :: 0 <= i < |args| ==> ReadsArg(v, argv, args, i)
  {
    SlotReads(v, addr, argv, |args|);
    WordAtValue(v, Slot(addr, |args|), 0);
    forall i | 0 <= i < |args| ensures ReadsArg(v, argv, args, i) { ArgReads(v, args, addr, argv, i); }
  }

  lemma SameList(v: Store, argv: nat, args: seq<Str>, list: seq<Str>)
    requires v.Valid() && |args| == |list|
    requires forall i :: 0 <= i < |args| ==> ReadsArg(v, argv, args, i)
    requires forall i :: 0 <= i < |list| ==> ReadsArg(v, argv, list, i)
    ensures list == args
  {
    forall i | 0 <= i < |args| ensures list[i] == args[i] {
      assert ReadsArg(v, argv, args, i) && ReadsArg(v, argv, list, i);
      CStringUnique(v, WordValue(v, argv + 8 * i), list[i], args[i]);
    }
  }

  lemma CountFits(args: seq<Str>, addr: nat)
    requires Fits(args, addr)
    ensures |args| < M64
  {
    PlaceOf(args, addr, 0);
    PlaceMonotone(args, addr, 0, |args|);
  }
}
