/** Whole walks of the golden fetch model: call/return matching, alignment, independence from
    the predictor, and the sentinel as a fixpoint. A walk is a sequence of states, each one
    step after the other; it is first studied for any feed of decoded instructions, then for
    the feed that decoding an image gives. The image may change while the walk goes on. */
module IssWalk {
  import opened Arith
  import opened Immediates
  import opened Iss

  /** What step k finds at an address. */
  type Feed = (nat, nat) -> Event

  /** The event of step k. */
  function At(ss: seq<State>, feed: Feed, k: nat): Event
    requires k < |ss|
  {
    feed(k, ss[k].pc)
  }

  ghost predicate StepAt(ss: seq<State>, feed: Feed, k: nat)
    requires k + 1 < |ss|
  {
    ss[k].Valid() && ss[k + 1] == Advance(ss[k], At(ss, feed, k))
  }

  ghost predicate Walk(ss: seq<State>, feed: Feed) {
    |ss| > 0 && ss[0].Valid() && forall k :: 0 <= k < |ss| - 1 ==> StepAt(ss, feed, k)
  }

  function Length(e: Entry): nat {
    if e.rvc then 2 else 4
  }

  // ----- Call/return matching -----

  /** An instruction sits where it was looked up, does not both push and pop, and falls through to the next one. */
  predicate Proper(ev: Event, pc: nat) {
    ev.entry.pc == pc && !(ev.t.push && ev.t.pop) && ev.t.fall == Plus(pc, Length(ev.entry))
  }

  ghost predicate ProperFeed(feed: Feed) {
    forall k: nat, pc :: Proper(feed(k, pc), pc)
  }

  /** What a transfer does to the stack and to pc, the ring left aside. */
  function NextStack(stack: seq<nat>, t: Transfer): seq<nat> {
    var pushed := if t.push then stack + [t.fall] else stack;
    if t.pop && pushed != [] then pushed[..|pushed| - 1] else pushed
  }

  function NextPc(stack: seq<nat>, t: Transfer): nat {
    var pushed := if t.push then stack + [t.fall] else stack;
    if !t.pop then t.target else if pushed == [] then t.fall else pushed[|pushed| - 1]
  }

  lemma AdvanceEffect(s: State, ev: Event)
    requires s.Valid()
    ensures
      var s' := Advance(s, ev);
      s'.stack == NextStack(s.stack, ev.t) && s'.pc == NextPc(s.stack, ev.t)
  {
  }

  lemma StepEffect(ss: seq<State>, feed: Feed, k: nat)
    requires Walk(ss, feed) && ProperFeed(feed) && k < |ss| - 1
    ensures
      var ev := At(ss, feed, k);
      Proper(ev, ss[k].pc) && ss[k + 1].stack == NextStack(ss[k].stack, ev.t) && ss[k + 1].pc == NextPc(ss[k].stack, ev.t)
  {
    assert StepAt(ss, feed, k);
    AdvanceEffect(ss[k], At(ss, feed, k));
  }

  /** Pushes minus pops in the steps from i up to k. */
  function Net(ss: seq<State>, feed: Feed, i: nat, k: nat): int
    requires k <= |ss|
  {
    if k <= i then 0
    else
      var t := At(ss, feed, k - 1).t;
      Net(ss, feed, i, k - 1) + (if t.push then 1 else 0) - (if t.pop then 1 else 0)
  }

  /** Steps in which pops never outnumber pushes leave the stack below untouched. */
  lemma {:induction false} BalancedKeepsStack(ss: seq<State>, feed: Feed, i: nat, k: nat)
    requires Walk(ss, feed) && ProperFeed(feed) && i <= k < |ss|
    requires forall m :: i <= m <= k ==> Net(ss, feed, i, m) >= 0
    ensures ss[i].stack <= ss[k].stack && |ss[k].stack| == |ss[i].stack| + Net(ss, feed, i, k)
    decreases k - i
  {
    if i == k {
    } else {
      BalancedKeepsStack(ss, feed, i, k - 1);
      StepEffect(ss, feed, k - 1);
      assert Net(ss, feed, i, k) >= 0;
    }
  }

  /** Calls and returns match: if step i is a call, step j a return, and the steps between them (from b = i + 1) are
      balanced without underflow, then the return goes right behind the call and restores the stack. */
  lemma MatchingReturn(ss: seq<State>, feed: Feed, i: nat, b: nat, j: nat)
    requires Walk(ss, feed) && ProperFeed(feed) && b == i + 1 <= j < |ss| - 1
    requires At(ss, feed, i).t.push && At(ss, feed, j).t.pop
    requires Net(ss, feed, b, j) == 0 && forall m :: b <= m <= j ==> Net(ss, feed, b, m) >= 0
    ensures ss[j + 1].pc == Plus(ss[i].pc, Length(At(ss, feed, i).entry)) && ss[j + 1].stack == ss[i].stack
  {
    StepEffect(ss, feed, i);
    BalancedKeepsStack(ss, feed, b, j);
    StepEffect(ss, feed, j);
  }

  // ----- Alignment -----

  predicate Even(a: nat) {
    a % 2 == 0
  }

  predicate EvenEvent(ev: Event) {
    Even(ev.t.fall) && Even(ev.t.target)
  }

  ghost predicate EvenState(s: State) {
    Even(s.pc) && forall k :: 0 <= k < |s.stack| ==> Even(s.stack[k])
  }

  ghost predicate EvenFeed(feed: Feed) {
    forall k: nat, pc :: Even(pc) ==> EvenEvent(feed(k, pc))
  }

  /** From an even start every emitted pc and every stacked address is even. */
  lemma {:induction false} EvenAlways(ss: seq<State>, feed: Feed, k: nat)
    requires Walk(ss, feed) && ProperFeed(feed) && EvenFeed(feed) && EvenState(ss[0]) && k < |ss|
    ensures EvenState(ss[k])
  {
    if k == 0 {
    } else {
      EvenAlways(ss, feed, k - 1);
      StepEffect(ss, feed, k - 1);
    }
  }

  // ----- Addresses are 64-bit -----

  ghost predicate Words64(s: State) {
    s.pc < M64 && forall k :: 0 <= k < |s.stack| ==> s.stack[k] < M64
  }

  predicate Event64(ev: Event) {
    ev.t.fall < M64 && ev.t.target < M64
  }

  ghost predicate Feed64(feed: Feed) {
    forall k: nat, pc :: Event64(feed(k, pc))
  }

  /** From 64-bit addresses a walk stays with them. */
  lemma {:induction false} Words64Always(ss: seq<State>, feed: Feed, k: nat)
    requires Walk(ss, feed) && ProperFeed(feed) && Feed64(feed) && Words64(ss[0]) && k < |ss|
    ensures Words64(ss[k])
  {
    if k == 0 {
    } else {
      Words64Always(ss, feed, k - 1);
      StepEffect(ss, feed, k - 1);
      assert Event64(feed(k - 1, ss[k - 1].pc));
    }
  }

  // ----- The predictor does not matter -----

  /** Equal but for the ring and what it predicted. */
  predicate SameWalk(s: State, t: State) {
    s.pc == t.pc && s.stack == t.stack && s.count == t.count && s.prefix == t.prefix && s.seen == t.seen
  }

  /** The bookkeeping of one step. */
  lemma AdvanceCount(s: State, ev: Event)
    requires s.Valid()
    ensures
      var s' := Advance(s, ev);
      && s'.count == s.count + 1 && s'.seen == (s.seen || IsSentinel(ev.entry))
      && s'.prefix == if !s.seen && IsSentinel(ev.entry) then s.count else s.prefix
  {
  }

  lemma AdvanceSame(s: State, t: State, ev: Event)
    requires s.Valid() && t.Valid() && SameWalk(s, t)
    ensures SameWalk(Advance(s, ev), Advance(t, ev))
  {
    AdvanceEffect(s, ev);
    AdvanceEffect(t, ev);
    AdvanceCount(s, ev);
    AdvanceCount(t, ev);
  }

  /** Predictor non-interference: two walks whose starts differ only in the predictor emit the same entries forever,
      and the states differ only in the predictor. */
  lemma {:induction false} PredictorIndependence(ss: seq<State>, ts: seq<State>, feed: Feed, k: nat)
    requires Walk(ss, feed) && Walk(ts, feed) && SameWalk(ss[0], ts[0]) && k < |ss| == |ts|
    ensures SameWalk(ss[k], ts[k]) && At(ss, feed, k) == At(ts, feed, k)
  {
    if k == 0 {
    } else {
      PredictorIndependence(ss, ts, feed, k - 1);
      assert StepAt(ss, feed, k - 1) && StepAt(ts, feed, k - 1);
      AdvanceSame(ss[k - 1], ts[k - 1], At(ss, feed, k - 1));
    }
  }

  // ----- The sentinel -----

  lemma {:induction false} BeforeSentinel(ss: seq<State>, feed: Feed, n: nat)
    requires Walk(ss, feed) && n < |ss| && ss[0].count == 0 && !ss[0].seen
    requires forall m :: 0 <= m < n ==> !IsSentinel(At(ss, feed, m).entry)
    ensures ss[n].count == n && !ss[n].seen
  {
    if n == 0 {
    } else {
      BeforeSentinel(ss, feed, n - 1);
      assert StepAt(ss, feed, n - 1);
      AdvanceCount(ss[n - 1], At(ss, feed, n - 1));
    }
  }

  /** The sentinel jumps to itself. */
  predicate Halts(ev: Event, pc: nat) {
    IsSentinel(ev.entry) && ev.t == Transfer(false, false, Plus(pc, 4), pc)
  }

  /** The sentinel is a fixpoint: if step n emits the first sentinel and the image keeps it, every later entry is that
      same entry, the stack no longer changes, and prefix_count stays n, the number of entries before it. */
  lemma {:induction false} SentinelFixpoint(ss: seq<State>, feed: Feed, n: nat, k: nat)
    requires Walk(ss, feed) && n <= k < |ss| - 1 && ss[0].count == 0 && !ss[0].seen
    requires Halts(At(ss, feed, n), ss[n].pc) && forall m :: 0 <= m < n ==> !IsSentinel(At(ss, feed, m).entry)
    requires forall m :: n <= m <= k ==> feed(m, ss[n].pc) == feed(n, ss[n].pc)
    ensures At(ss, feed, k) == At(ss, feed, n)
    ensures ss[k + 1].stack == ss[n].stack && ss[k + 1].pc == ss[n].pc
    ensures ss[k + 1].seen && ss[k + 1].prefix == n
    decreases k
  {
    if k == n {
      BeforeSentinel(ss, feed, n);
    } else {
      SentinelFixpoint(ss, feed, n, k - 1);
    }
    assert StepAt(ss, feed, k);
    AdvanceCount(ss[k], At(ss, feed, k));
    AdvanceEffect(ss[k], At(ss, feed, k));
  }

  // ----- Decoding an image gives such a feed -----

  lemma EvenSum(a: nat, b: nat)
    requires Even(a) && Even(b)
    ensures Even(Plus(a, b))
  {
  }

  lemma EvenPad(pc: nat)
    ensures Even(JrTarget(pc))
  {
    var base, skip := pc / 64 * 64, 0x40 + pc / 64 % 4 * 64;
    assert base == 2 * (pc / 64 * 32) && skip == 2 * (0x20 + pc / 64 % 4 * 32);
    EvenSum(base, skip);
  }

  /** An even 64-bit word is an even number. */
  lemma EvenWord(o: bv64)
    requires o & 1 == 0
    ensures Even(o as nat)
  {
    assert o == (o >> 1) * 2;
    assert o == (o >> 1) + (o >> 1);
  }

  /** No instruction is both a call and a return, and direct offsets are even. */
  predicate Sound(kind: Kind) {
    match kind
    case Plain => true
    case Branch(off) => Even(off)
    case Jump(_, off) => Even(off)
    case Indirect(push, pop) => !(push && pop)
  }

  lemma Sound32(inst: bv32)
    ensures Sound(Kind32(inst))
  {
    EncodeDecodeB(inst);
    EvenWord(ImmB(inst));
    EncodeDecodeJ(inst);
    EvenWord(ImmJ(inst));
  }

  lemma SoundRvc(h: bv16)
    ensures Sound(KindRvc(h))
  {
    EncodeDecodeCj(h as bv32);
    EvenWord(ImmCj(h as bv32));
    EncodeDecodeCb(h as bv32);
    EvenWord(ImmCb(h as bv32));
  }

  /** Any sound kind makes a proper event, which keeps even addresses even. */
  lemma SoundEvent(e: Entry, kind: Kind)
    requires Sound(kind)
    ensures
      var ev := Event(e, TransferOf(kind, e.pc, Length(e)));
      Proper(ev, e.pc) && (Even(e.pc) ==> EvenEvent(ev)) && Event64(ev)
  {
    EvenPad(e.pc);
    if Even(e.pc) {
      EvenSum(e.pc, Length(e));
      if kind.Branch? || kind.Jump? { EvenSum(e.pc, kind.off); }
    }
  }

  lemma SentinelKind()
    ensures Kind32(SENTINEL) == Jump(false, 0)
  {
    assert FieldsJ(SENTINEL) == 0;
    ExtendJ(0);
  }

  /** Decoding an image gives a proper, even feed: no instruction both pushes and pops, each falls through to the next one
      in memory, even addresses lead to even addresses, and the sentinel leads to itself. */
  lemma DecodeProper(img: Image, pc: nat)
    ensures Proper(Decode(img, pc), pc)
    ensures (Even(pc) ==> EvenEvent(Decode(img, pc))) && Event64(Decode(img, pc))
    ensures IsSentinel(Decode(img, pc).entry) && pc < M64 ==> Halts(Decode(img, pc), pc)
  {
    if IsRvc(img(pc)) {
      SoundRvc(img(pc));
      SoundEvent(Entry(pc, img(pc) as bv32, true), KindRvc(img(pc)));
    } else {
      var inst := Word(img(pc), img(Plus(pc, 2)));
      Sound32(inst);
      SoundEvent(Entry(pc, inst, false), Kind32(inst));
      if inst == SENTINEL { SentinelKind(); }
    }
  }

  ghost predicate Decodes(feed: Feed, imgs: nat -> Image) {
    forall k: nat, pc: nat :: feed(k, pc) == Decode(imgs(k), pc)
  }

  lemma DecodedFeed(feed: Feed, imgs: nat -> Image)
    requires Decodes(feed, imgs)
    ensures ProperFeed(feed) && EvenFeed(feed) && Feed64(feed)
    ensures forall k: nat, pc: nat :: IsSentinel(feed(k, pc).entry) && pc < M64 ==> Halts(feed(k, pc), pc)
  {
    forall k: nat, pc: nat
      ensures Proper(feed(k, pc), pc) && (Even(pc) ==> EvenEvent(feed(k, pc))) && Event64(feed(k, pc))
      ensures IsSentinel(feed(k, pc).entry) && pc < M64 ==> Halts(feed(k, pc), pc)
    {
      DecodeProper(imgs(k), pc);
    }
  }

  /** Call/return matching over any walk of the model, even while the image changes: if entry i is a call, entry j a
      return, and the entries between them (from b = i + 1) are balanced without underflow, then entry j + 1 starts at
      the address of i plus its length, with the stack as it was at i. */
  lemma CallReturnMatching(ss: seq<State>, feed: Feed, imgs: nat -> Image, i: nat, b: nat, j: nat)
    requires Decodes(feed, imgs) && Walk(ss, feed) && b == i + 1 <= j < |ss| - 1
    requires At(ss, feed, i).t.push && At(ss, feed, j).t.pop
    requires Net(ss, feed, b, j) == 0 && forall m :: b <= m <= j ==> Net(ss, feed, b, m) >= 0
    ensures ss[j + 1].pc == Plus(ss[i].pc, Length(At(ss, feed, i).entry)) && ss[j + 1].stack == ss[i].stack
  {
    DecodedFeed(feed, imgs);
    MatchingReturn(ss, feed, i, b, j);
  }

  /** From an even start, every emitted pc and every stacked address of any walk of the model is even. */
  lemma EvenAddresses(ss: seq<State>, feed: Feed, imgs: nat -> Image, k: nat)
    requires Decodes(feed, imgs) && Walk(ss, feed) && EvenState(ss[0]) && k < |ss|
    ensures EvenState(ss[k]) && Even(At(ss, feed, k).entry.pc)
  {
    DecodedFeed(feed, imgs);
    EvenAlways(ss, feed, k);
    assert Proper(feed(k, ss[k].pc), ss[k].pc);
  }

  /** The sentinel fixpoint for walks of the model: once `jal x0, 0` is emitted, at step n, and while its two
      halfwords stay in the image, every entry is that one, the stack is unchanged and prefix_count is n. */
  lemma SentinelForever(ss: seq<State>, feed: Feed, imgs: nat -> Image, n: nat, k: nat)
    requires Decodes(feed, imgs) && Walk(ss, feed) && n <= k < |ss| - 1 && ss[0].count == 0 && !ss[0].seen
    requires IsSentinel(At(ss, feed, n).entry) && Words64(ss[0])
    requires forall m :: 0 <= m < n ==> !IsSentinel(At(ss, feed, m).entry)
    requires forall m :: n <= m <= k ==> imgs(m)(ss[n].pc) == imgs(n)(ss[n].pc)
    requires forall m :: n <= m <= k ==> imgs(m)(Plus(ss[n].pc, 2)) == imgs(n)(Plus(ss[n].pc, 2))
    ensures At(ss, feed, k) == At(ss, feed, n)
    ensures ss[k + 1].stack == ss[n].stack && ss[k + 1].seen && ss[k + 1].prefix == n
  {
    DecodedFeed(feed, imgs);
    Words64Always(ss, feed, n);
    forall m | n <= m <= k ensures feed(m, ss[n].pc) == feed(n, ss[n].pc) {
      assert Decode(imgs(m), ss[n].pc) == Decode(imgs(n), ss[n].pc);
    }
    SentinelFixpoint(ss, feed, n, k);
  }
}
