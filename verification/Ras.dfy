/** The return-address ring RasFaithfulView (m1_iss.h) beside the unbounded call stack it
    is meant to predict. */
module Ras {
  type Addr = nat

  /** entry[4] and pop_idx. */
  datatype Ring = Ring(entry: seq<Addr>, idx: nat) {
    ghost predicate Valid() {
      |entry| == 4 && idx < 4
    }

    function Push(v: Addr): (r: Ring)
      requires Valid()
      ensures r.Valid()
    {
      var i := (idx + 3) % 4;
      Ring(entry[i := v], i)
    }

    /** The target the ring predicts, read before the pointer rotates. */
    function Predict(): Addr
      requires Valid()
    {
      entry[idx]
    }

    function Pop(): (r: Ring)
      requires Valid()
      ensures r.Valid()
    {
      Ring(entry, (idx + 1) % 4)
    }
  }

  const EMPTY := Ring([0, 0, 0, 0], 0)

  /** RasFaithfulView as an object. */
  class RasView {
    const entry: array<Addr>
    var popIdx: nat

    ghost predicate Valid()
      reads this
    {
      entry.Length == 4 && popIdx < 4
    }

    ghost function View(): (r: Ring)
      requires Valid()
      reads this, entry
      ensures r.Valid()
    {
      Ring(entry[..], popIdx)
    }

    constructor ()
      ensures Valid() && View() == EMPTY && fresh(entry)
    {
      entry := new Addr[4](_ => 0);
      popIdx := 0;
      new;
      assert entry[..] == [0, 0, 0, 0];
    }

    method Pop() returns (predicted: Addr)
      requires Valid()
      modifies this
      ensures Valid() && View() == old(View()).Pop() && predicted == old(View()).Predict()
    {
      predicted := entry[popIdx];
      popIdx := (popIdx + 1) % 4;
    }

    method Push(fallThrough: Addr)
      requires Valid()
      modifies this, entry
      ensures Valid() && View() == old(View()).Push(fallThrough)
    {
      popIdx := (popIdx + 3) % 4;
      entry[popIdx] := fallThrough;
    }
  }

  // ----- Runs of pushes and pops -----

  datatype Op = Push(v: Addr) | Pop

  /** The unbounded stack after a run; a pop of the empty stack leaves it empty. */
  function Stack(ops: seq<Op>): seq<Addr> {
    if ops == [] then []
    else
      var s := Stack(ops[..|ops| - 1]);
      match ops[|ops| - 1]
      case Push(v) => s + [v]
      case Pop => if s == [] then [] else s[..|s| - 1]
  }

  /** The ring after the same run, from any contents. */
  function After(r: Ring, ops: seq<Op>): (r': Ring)
    requires r.Valid()
    ensures r'.Valid()
  {
    if ops == [] then r
    else
      var q := After(r, ops[..|ops| - 1]);
      match ops[|ops| - 1]
      case Push(v) => q.Push(v)
      case Pop => q.Pop()
  }

  function Depth(ops: seq<Op>): nat {
    |Stack(ops)|
  }

  /** Op k pushes onto stack position p. */
  predicate PushesAt(ops: seq<Op>, k: nat, p: nat)
    requires k < |ops|
  {
    ops[k].Push? && Depth(ops[..k]) == p
  }

  /** Op k writes the ring slot that belongs to stack position p: it pushes at p, p+4, p+8, ... */
  predicate WritesSlotOf(ops: seq<Op>, k: nat, p: nat)
    requires k < |ops|
  {
    ops[k].Push? && Depth(ops[..k]) >= p && (Depth(ops[..k]) - p) % 4 == 0
  }

  /** Op k is the last one to write the slot of position p. */
  ghost predicate LastWriter(ops: seq<Op>, k: nat, p: nat) {
    k < |ops| && WritesSlotOf(ops, k, p) && forall i :: k < i < |ops| ==> !WritesSlotOf(ops, i, p)
  }

  /** Op k is the push that the entry at position p comes from: the last push at that very position. */
  ghost predicate Origin(ops: seq<Op>, k: nat, p: nat) {
    k < |ops| && PushesAt(ops, k, p) && forall i :: k < i < |ops| ==> !PushesAt(ops, i, p)
  }

  lemma {:induction false} ExtendOrigin(ops: seq<Op>, k: nat, p: nat)
    requires ops != [] && Origin(ops[..|ops| - 1], k, p) && !PushesAt(ops, |ops| - 1, p)
    ensures Origin(ops, k, p)
  {
    forall i | k <= i < |ops| - 1 ensures PushesAt(ops, i, p) == PushesAt(ops[..|ops| - 1], i, p) {
      assert ops[..|ops| - 1][..i] == ops[..i];
    }
  }

  lemma {:induction false} ExtendWriter(ops: seq<Op>, k: nat, p: nat)
    requires ops != [] && LastWriter(ops[..|ops| - 1], k, p) && !WritesSlotOf(ops, |ops| - 1, p)
    ensures LastWriter(ops, k, p)
  {
    forall i | k <= i < |ops| - 1 ensures WritesSlotOf(ops, i, p) == WritesSlotOf(ops[..|ops| - 1], i, p) {
      assert ops[..|ops| - 1][..i] == ops[..i];
    }
  }

  /** Every live entry comes from its origin. */
  lemma {:induction false} OriginOf(ops: seq<Op>, p: nat) returns (k: nat)
    requires p < Depth(ops)
    ensures Origin(ops, k, p) && Stack(ops)[p] == ops[k].v
    decreases |ops|
  {
    var n := |ops| - 1;
    if PushesAt(ops, n, p) {
      k := n;
    } else {
      k := OriginOf(ops[..n], p);
      ExtendOrigin(ops, k, p);
    }
  }

  /** The slot of stack position p when d is the depth. */
  function Slot(r: Ring, d: nat, p: nat): nat
    requires p < d
  {
    (r.idx + (d - 1 - p)) % 4
  }

  /** A push at depth d takes over the slot of exactly the positions d, d-4, d-8, ... and moves no other slot. */
  lemma SlotsAfterPush(r: Ring, v: Addr, d: nat, p: nat)
    requires r.Valid() && p <= d
    ensures Slot(r.Push(v), d + 1, p) == r.Push(v).idx <==> (d - p) % 4 == 0
    ensures p < d ==> Slot(r.Push(v), d + 1, p) == Slot(r, d, p)
  {
  }

  lemma SlotsAfterPop(r: Ring, d: nat, p: nat)
    requires r.Valid() && p + 1 < d
    ensures Slot(r.Pop(), d - 1, p) == Slot(r, d, p)
  {
  }

  /** The slot of a live entry holds what its last writer pushed. */
  lemma {:induction false} WriterOf(r: Ring, ops: seq<Op>, p: nat) returns (k: nat)
    requires r.Valid() && p < Depth(ops)
    ensures LastWriter(ops, k, p) && After(r, ops).entry[Slot(After(r, ops), Depth(ops), p)] == ops[k].v
    decreases |ops|
  {
    var n := |ops| - 1;
    var before := ops[..n];
    var q, d := After(r, before), Depth(before);
    if WritesSlotOf(ops, n, p) {
      SlotsAfterPush(q, ops[n].v, d, p);
      k := n;
    } else {
      k := WriterOf(r, before, p);
      ExtendWriter(ops, k, p);
      if ops[n].Push? { SlotsAfterPush(q, ops[n].v, d, p); } else { SlotsAfterPop(q, d, p); }
    }
  }

  // ----- When the prediction is right -----

  /** The depth never exceeded `limit` after op k. */
  ghost predicate StayedBelow(ops: seq<Op>, k: nat, limit: nat) {
    forall i :: k < i <= |ops| ==> Depth(ops[..i]) <= limit
  }

  /** One op changes the depth by at most one. */
  lemma DepthStep(ops: seq<Op>, i: nat)
    requires i < |ops|
    ensures
      var d := Depth(ops[..i]);
      Depth(ops[..i + 1]) == if ops[i].Push? then d + 1 else if d == 0 then 0 else d - 1
  {
    assert ops[..i + 1][..i] == ops[..i];
  }

  /** To exceed a depth, the run pushes at that depth. */
  lemma {:induction false} Crossing(ops: seq<Op>, a: nat, b: nat, limit: nat) returns (j: nat)
    requires a <= b <= |ops| && Depth(ops[..a]) <= limit < Depth(ops[..b])
    ensures a <= j < b && PushesAt(ops, j, limit)
    decreases b - a
  {
    DepthStep(ops, b - 1);
    if Depth(ops[..b - 1]) <= limit {
      j := b - 1;
    } else {
      j := Crossing(ops, a, b - 1, limit);
    }
  }

  /** The slot of the top entry was last written by the entry's own push if and only if the depth has not
      exceeded its position plus four since. */
  lemma OwnWriteIffShallow(ops: seq<Op>, p: nat, origin: nat, writer: nat)
    requires Origin(ops, origin, p) && LastWriter(ops, writer, p)
    ensures writer == origin <==> StayedBelow(ops, origin, p + 4)
  {
    assert WritesSlotOf(ops, origin, p);
    assert writer >= origin;
    if writer > origin {
      DepthStep(ops, writer);
      assert !PushesAt(ops, writer, p);
      assert Depth(ops[..writer + 1]) > p + 4;
    } else if !StayedBelow(ops, origin, p + 4) {
      var i :| origin < i <= |ops| && Depth(ops[..i]) > p + 4;
      DepthStep(ops, origin);
      var j := Crossing(ops, origin + 1, i, p + 4);
      assert WritesSlotOf(ops, j, p);
      assert false;
    }
  }

  /** A live entry has exactly one origin, and its slot exactly one last writer. */
  lemma OriginAndWriterExist(ops: seq<Op>, p: nat)
    requires p < Depth(ops)
    ensures (exists k :: Origin(ops, k, p)) && exists k :: LastWriter(ops, k, p)
    ensures forall k, k' :: Origin(ops, k, p) && Origin(ops, k', p) ==> k == k'
    ensures forall k, k' :: LastWriter(ops, k, p) && LastWriter(ops, k', p) ==> k == k'
  {
    var origin := OriginOf(ops, p);
    var writer := WriterOf(EMPTY, ops, p);
  }

  /** Ring against stack: after any run, with any number of pops of the empty stack in it, the ring predicts for
      a pop of a non-empty stack (whose top position is p) the value of the op that last wrote the top entry's slot;
      that op is the push the stack returns exactly when the depth since that push never exceeded p + 4. */
  lemma RingAgainstStack(r: Ring, ops: seq<Op>, p: nat, origin: nat, writer: nat)
    requires r.Valid() && Depth(ops) == p + 1
    requires Origin(ops, origin, p) && LastWriter(ops, writer, p)
    ensures Stack(ops)[p] == ops[origin].v
    ensures After(r, ops).Predict() == ops[writer].v
    ensures writer == origin <==> StayedBelow(ops, origin, p + 4)
  {
    var o := OriginOf(ops, p);
    var w := WriterOf(r, ops, p);
    assert o == origin && w == writer by { OriginAndWriterExist(ops, p); }
    OwnWriteIffShallow(ops, p, origin, writer);
  }

  /** Hence a shallow return is always predicted, and a wrong prediction means a deep excursion. */
  lemma ShallowReturnsPredicted(r: Ring, ops: seq<Op>, p: nat, origin: nat)
    requires r.Valid() && Depth(ops) == p + 1 && Origin(ops, origin, p)
    requires StayedBelow(ops, origin, p + 4)
    ensures After(r, ops).Predict() == Stack(ops)[p]
  {
    var writer := WriterOf(r, ops, p);
    RingAgainstStack(r, ops, p, origin, writer);
  }

  // ----- Nested calls -----

  function PushAll(r: Ring, vs: seq<Addr>): (r': Ring)
    requires r.Valid()
    ensures r'.Valid()
  {
    if vs == [] then r else PushAll(r, vs[..|vs| - 1]).Push(vs[|vs| - 1])
  }

  function PopN(r: Ring, j: nat): (r': Ring)
    requires r.Valid()
    ensures r'.Valid()
  {
    if j == 0 then r else PopN(r, j - 1).Pop()
  }

  /** The slot i places behind the pointer. */
  function Behind(r: Ring, i: nat): Addr
    requires r.Valid() && i < 4
  {
    var k := r.idx + i;
    r.entry[if k < 4 then k else k - 4]
  }

  /** A push puts its value at the pointer and every slot but the last one further behind. */
  lemma PushBehind(r: Ring, v: Addr, r': Ring, i: nat)
    requires r.Valid() && r' == r.Push(v) && i < 4
    ensures Behind(r', i) == if i == 0 then v else Behind(r, i - 1)
  {
    var k := r.idx;
    assert k == 0 || k == 1 || k == 2 || k == 3;
  }

  lemma {:induction false} PushAllSlots(r: Ring, vs: seq<Addr>, i: nat)
    requires r.Valid() && i < 4 && i < |vs|
    ensures Behind(PushAll(r, vs), i) == vs[|vs| - 1 - i]
    decreases |vs|
  {
    var n := |vs| - 1;
    PushBehind(PushAll(r, vs[..n]), vs[n], PushAll(r, vs), i);
    if i == 0 {
    } else {
      PushAllSlots(r, vs[..n], i - 1);
    }
  }

  lemma {:induction false} PopNIndex(r: Ring, j: nat)
    requires r.Valid()
    ensures PopN(r, j).entry == r.entry && PopN(r, j).idx == (r.idx + j) % 4
  {
    if j == 0 {
    } else {
      PopNIndex(r, j - 1);
    }
  }

  /** After n >= 4 nested calls v0 .. v(n-1), from any ring contents, the j-th return is predicted as
      v(n-1 - j mod 4): right for the last four, and the same four values again ever after. */
  lemma NestedReturns(r: Ring, vs: seq<Addr>, j: nat)
    requires r.Valid() && 4 <= |vs|
    ensures PopN(PushAll(r, vs), j).Predict() == vs[|vs| - 1 - j % 4]
  {
    var q := PushAll(r, vs);
    PushAllSlots(r, vs, j % 4);
    PopNIndex(q, j);
    ModSum(q.idx, j);
  }

  lemma ModSum(x: nat, j: nat)
    requires x < 4
    ensures (x + j) % 4 == if x + j % 4 < 4 then x + j % 4 else x + j % 4 - 4
  {
    assert j == 4 * (j / 4) + j % 4;
  }
}
