/** The golden fetch model m1::Iss (m1_iss.h): it walks an instruction image, one committed
    instruction per step, with an unbounded call stack and, beside it, the four-entry ring
    that mirrors the hardware's return-address predictor. */
module Iss {
  import opened Arith
  import opened Immediates
  import opened Ras

  /** Addresses are 64-bit words; their arithmetic wraps around. */
  function Plus(a: nat, b: nat): nat {
    (a + b) % M64
  }

  /** Halfword fetch; the image may change between steps. */
  type Image = nat -> bv16

  const SENTINEL: bv32 := 0x6F // jal x0, 0

  datatype Entry = Entry(pc: nat, opcode: bv32, rvc: bool)

  /** The landing pad of an indirect jump. */
  function JrTarget(pc: nat): nat {
    Plus(pc / 64 * 64, 0x40 + pc / 64 % 4 * 64)
  }

  /** The direction rule: parity of address bits 7:4. */
  function BranchTaken(pc: nat): bool {
    var n0 := (pc / 16 % 16) as bv32;
    var n1 := n0 ^ (n0 >> 2);
    var n2 := n1 ^ (n1 >> 1);
    n2 & 1 != 0
  }

  /** The classes of instructions the walk distinguishes. `Indirect` is the jalr family: it may push (a call
      through x1) or pop (a return through x1). */
  datatype Kind = Plain | Branch(off: nat) | Jump(call: bool, off: nat) | Indirect(push: bool, pop: bool)

  /** The decoding of next_pc_32. */
  function Kind32(inst: bv32): Kind {
    var op := inst & 0x7F;
    var rd := (inst >> 7) & 0x1F;
    var rs1 := (inst >> 15) & 0x1F;
    if op == 0x63 then Branch(ImmB(inst) as nat)
    else if op == 0x6F then Jump(rd == 1, ImmJ(inst) as nat)
    else if op == 0x67 then Indirect(rd == 1, rs1 == 1 && rd != rs1)
    else Plain
  }

  /** The decoding of next_pc_rvc. */
  function KindRvc(h: bv16): Kind {
    var q := h & 0x3;
    var f3 := (h >> 13) & 0x7;
    var rs1 := (h >> 7) & 0x1F;
    var rs2 := (h >> 2) & 0x1F;
    if q == 0x1 then
      if f3 == 0x5 then Jump(false, ImmCj(h as bv32) as nat)
      else if f3 == 0x6 || f3 == 0x7 then Branch(ImmCb(h as bv32) as nat)
      else Plain
    else if q == 0x2 && f3 == 0x4 && rs2 == 0 && rs1 != 0 then
      if (h >> 12) & 1 == 0 then Indirect(false, rs1 == 1) else Indirect(true, false)
    else Plain
  }

  /** What one instruction does to the walk: push its fall-through address, pop the next address, or go to
      `target`. */
  datatype Transfer = Transfer(push: bool, pop: bool, fall: nat, target: nat)

  function TransferOf(kind: Kind, cur: nat, length: nat): Transfer {
    var fall := Plus(cur, length);
    match kind
    case Plain => Transfer(false, false, fall, fall)
    case Branch(off) => Transfer(false, false, fall, if BranchTaken(cur) then Plus(cur, off) else fall)
    case Jump(call, off) => Transfer(call, false, fall, Plus(cur, off))
    case Indirect(push, pop) => Transfer(push, pop, fall, JrTarget(cur))
  }

  /** An instruction together with what it does to the walk. */
  datatype Event = Event(entry: Entry, t: Transfer)

  function EventRvc(pc: nat, h: bv16): Event {
    Event(Entry(pc, h as bv32, true), TransferOf(KindRvc(h), pc, 2))
  }

  function Event32(pc: nat, inst: bv32): Event {
    Event(Entry(pc, inst, false), TransferOf(Kind32(inst), pc, 4))
  }

  function Word(lo: bv16, hi: bv16): bv32 {
    (lo as bv32) | ((hi as bv32) << 16)
  }

  /** A halfword whose low two bits are not 11 is a 16-bit instruction. */
  predicate IsRvc(h: bv16) {
    h & 0x3 != 0x3
  }

  function Decode(img: Image, pc: nat): Event {
    if IsRvc(img(pc)) then EventRvc(pc, img(pc)) else Event32(pc, Word(img(pc), img(Plus(pc, 2))))
  }

  /** pc, stack, count, prefix_count, sentinel_seen, ras_view, ras_faithful_mispredict, ras_faithful_pred_pc. */
  datatype State = State(pc: nat, stack: seq<nat>, count: nat, prefix: nat, seen: bool,
                         ring: Ring, mispredict: bool, predicted: nat) {
    ghost predicate Valid() { ring.Valid() }
  }

  function PushOn(s: State, fall: nat): (s': State)
    requires s.Valid()
    ensures s'.Valid()
  {
    s.(stack := s.stack + [fall], ring := s.ring.Push(fall))
  }

  /** The popped address, or the fall-through address when the stack is empty; the ring is polled in either case. */
  function PopFrom(s: State, fall: nat): (r: (State, nat))
    requires s.Valid()
    ensures r.0.Valid()
  {
    var n := |s.stack|;
    var actual := if n == 0 then fall else s.stack[n - 1];
    (s.(stack := if n == 0 then [] else s.stack[..n - 1], ring := s.ring.Pop(),
        mispredict := s.ring.Predict() != actual, predicted := s.ring.Predict()), actual)
  }

  function Follow(s: State, t: Transfer): (s': State)
    requires s.Valid()
    ensures s'.Valid()
  {
    var s1 := if t.push then PushOn(s, t.fall) else s;
    if t.pop then
      var (s2, actual) := PopFrom(s1, t.fall);
      s2.(pc := actual)
    else s1.(pc := t.target)
  }

  predicate IsSentinel(e: Entry) {
    !e.rvc && e.opcode == SENTINEL
  }

  /** The bookkeeping of next(): the first sentinel fixes prefix_count, and every entry is counted. */
  function Mark(s: State, sentinel: bool): (s': State)
    requires s.Valid()
    ensures s'.Valid()
  {
    s.(seen := s.seen || sentinel, prefix := if !s.seen && sentinel then s.count else s.prefix, count := s.count + 1)
  }

  /** next(), once the instruction at pc is decoded. */
  function Advance(s: State, ev: Event): (s': State)
    requires s.Valid()
    ensures s'.Valid()
  {
    Follow(Mark(s, IsSentinel(ev.entry)), ev.t)
  }

  /** next(). */
  function Step(s: State, img: Image): (r: (State, Entry))
    requires s.Valid()
    ensures r.0.Valid()
  {
    var ev := Decode(img, s.pc);
    (Advance(s, ev), ev.entry)
  }

  /** The model as an object. */
  class Walker {
    const ras: RasView
    var pc: nat
    var stack: seq<nat>
    var count: nat
    var prefixCount: nat
    var sentinelSeen: bool
    var mispredict: bool
    var predicted: nat

    ghost predicate Valid()
      reads this, ras
    {
      ras.Valid()
    }

    ghost function View(): (s: State)
      requires Valid()
      reads this, ras, ras.entry
      ensures s.Valid()
    {
      State(pc, stack, count, prefixCount, sentinelSeen, ras.View(), mispredict, predicted)
    }

    constructor (startPc: nat)
      ensures Valid() && View() == State(startPc, [], 0, 0, false, EMPTY, false, 0)
      ensures fresh(ras) && fresh(ras.entry)
    {
      ras := new RasView();
      pc, stack, count, prefixCount, sentinelSeen, mispredict, predicted := startPc, [], 0, 0, false, false, 0;
    }

    method Push(fall: nat)
      requires Valid()
      modifies this`stack, ras, ras.entry
      ensures Valid() && View() == PushOn(old(View()), fall)
    {
      stack := stack + [fall];
      ras.Push(fall);
    }

    method Pop(fall: nat) returns (actual: nat)
      requires Valid()
      modifies this, ras
      ensures Valid() && (View(), actual) == PopFrom(old(View()), fall)
    {
      var faithful := ras.Pop();
      if stack == [] {
        actual := fall;
      } else {
        actual := stack[|stack| - 1];
        stack := stack[..|stack| - 1];
      }
      mispredict := faithful != actual;
      predicted := faithful;
    }

    method FollowTransfer(t: Transfer)
      requires Valid()
      modifies this, ras, ras.entry
      ensures Valid() && View() == Follow(old(View()), t)
    {
      if t.push { Push(t.fall); }
      if t.pop { pc := Pop(t.fall); } else { pc := t.target; }
    }

    method Note(sentinel: bool)
      requires Valid()
      modifies this`sentinelSeen, this`prefixCount, this`count
      ensures Valid() && View() == Mark(old(View()), sentinel)
    {
      if !sentinelSeen && sentinel {
        sentinelSeen := true;
        prefixCount := count;
      }
      count := count + 1;
    }

    method AdvanceBy(ev: Event)
      requires Valid()
      modifies this, ras, ras.entry
      ensures Valid() && View() == Advance(old(View()), ev)
    {
      Note(IsSentinel(ev.entry));
      FollowTransfer(ev.t);
    }

    method Next(img: Image) returns (e: Entry)
      requires Valid()
      modifies this, ras, ras.entry
      ensures Valid() && (View(), e) == Step(old(View()), img)
    {
      var ev := Decode(img, pc);
      AdvanceBy(ev);
      e := ev.entry;
    }
  }
}
