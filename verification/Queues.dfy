/** The two ring buffers of io/RVProc_io.h: FIFO, which drops a push when it is full, and the pointers and flags of
    IOBuf. */
module Queues {
  /** An index of a ring of n slots, for i below 2 * n. */
  function Wrap(i: nat, n: nat): nat {
    if i < n then i else i - n
  }

  // ----- FIFO -----

  /** The n items of a ring from slot r on. */
  function Ring<T>(buf: seq<T>, r: nat, n: nat): (q: seq<T>)
    requires r < |buf| && n <= |buf|
    ensures |q| == n && forall i :: 0 <= i < n ==> q[i] == buf[Wrap(r + i, |buf|)]
  {
    seq(n, i requires 0 <= i < n => buf[Wrap(r + i, |buf|)])
  }

  lemma RingPush<T>(buf: seq<T>, r: nat, n: nat, data: T)
    requires r < |buf| && n < |buf|
    ensures Ring(buf[Wrap(r + n, |buf|) := data], r, n + 1) == Ring(buf, r, n) + [data]
  {
  }

  lemma RingPop<T>(buf: seq<T>, r: nat, n: nat)
    requires r < |buf| && 0 < n <= |buf|
    ensures Ring(buf, r, n) == [buf[r]] + Ring(buf, Wrap(r + 1, |buf|), n - 1)
  {
  }

  class Fifo<T> {
    const buf: array<T>
    var rptr: nat
    var wptr: nat
    var size: nat

    ghost predicate Valid()
      reads this
    {
      rptr < buf.Length && size <= buf.Length && wptr == Wrap(rptr + size, buf.Length)
    }

    /** The queued items, oldest first. */
    ghost function Contents(): (q: seq<T>)
      requires Valid()
      reads this, buf
      ensures |q| == size
    {
      Ring(buf[..], rptr, size)
    }

    constructor (capacity: nat, fill: T)
      requires 0 < capacity
      ensures Valid() && fresh(buf) && buf.Length == capacity && Contents() == []
    {
      buf := new T[capacity](_ => fill);
      rptr, wptr, size := 0, 0, 0;
    }

    method Push(data: T)
      requires Valid()
      modifies this, buf
      ensures Valid() && Contents() == Enqueue(old(Contents()), buf.Length, data)
    {
      if size < buf.Length {
        RingPush(buf[..], rptr, size, data);
        ghost var after := buf[..][wptr := data];
        buf[wptr] := data;
        assert buf[..] == after;
        wptr := wptr + 1;
        if wptr == buf.Length { wptr := 0; }
        size := size + 1;
      }
    }

    /** On an empty queue the result is a leftover of the buffer and nothing changes. */
    method Pop() returns (data: T)
      requires Valid()
      modifies this
      ensures Valid() && Contents() == Dequeue(old(Contents()))
      ensures old(Contents()) != [] ==> data == old(Contents())[0]
    {
      data := buf[rptr];
      if size != 0 {
        RingPop(buf[..], rptr, size);
        ghost var rest := Ring(buf[..], Wrap(rptr + 1, buf.Length), size - 1);
        rptr := rptr + 1;
        if rptr == buf.Length { rptr := 0; }
        size := size - 1;
        assert Contents() == rest;
      }
    }
  }

  function Enqueue<T>(q: seq<T>, capacity: nat, data: T): seq<T> {
    if |q| < capacity then q + [data] else q
  }

  function Dequeue<T>(q: seq<T>): seq<T> {
    if q == [] then [] else q[1..]
  }

  datatype Op<T> = PushOp(data: T) | PopOp

  /** A run from empty: what is queued, what was pushed while there was room, what was popped. */
  datatype History<T> = History(queue: seq<T>, accepted: seq<T>, popped: seq<T>)

  function Play<T>(ops: seq<Op<T>>, capacity: nat): History<T> {
    if ops == [] then History([], [], [])
    else
      var h := Play(ops[..|ops| - 1], capacity);
      match ops[|ops| - 1]
      case PushOp(data) =>
        History(Enqueue(h.queue, capacity, data),
                if |h.queue| < capacity then h.accepted + [data] else h.accepted, h.popped)
      case PopOp =>
        History(Dequeue(h.queue), h.accepted, if h.queue == [] then h.popped else h.popped + [h.queue[0]])
  }

  /** First in, first out, over every run: what was popped, followed by what is queued, is exactly what was accepted,
      in order, and the queue never exceeds its capacity. */
  lemma {:induction false} FirstInFirstOut<T>(ops: seq<Op<T>>, capacity: nat)
    ensures
      var h := Play(ops, capacity);
      h.popped + h.queue == h.accepted && |h.queue| <= capacity
  {
    if ops == [] {
    } else {
      FirstInFirstOut(ops[..|ops| - 1], capacity);
    }
  }

  // ----- IOBuf -----

  /** rp, wp and the two flags. */
  datatype Flags = Flags(notEmpty: bool, full: bool, rp: nat, wp: nat)

  const FLAGS_RESET := Flags(false, false, 0, 0)

  function NextPointer(p: nat, capacity: nat): nat {
    if p + 1 == capacity then 0 else p + 1
  }

  function UpdateFlags(f: Flags, capacity: nat, r: bool, w: bool): Flags {
    if !r && !w then f
    else
      var rp := if r then NextPointer(f.rp, capacity) else f.rp;
      var wp := if w then NextPointer(f.wp, capacity) else f.wp;
      Flags(w || rp != wp, !r && rp == wp, rp, wp)
  }

  /** IOBuf::update as an object; the pointers are 8-bit registers. */
  class IoBuf {
    const capacity: nat
    var notEmpty: bool
    var full: bool
    var rp: nat
    var wp: nat

    ghost function View(): Flags
      reads this
    {
      Flags(notEmpty, full, rp, wp)
    }

    constructor (capacity: nat)
      requires 0 < capacity <= 256
      ensures this.capacity == capacity && View() == FLAGS_RESET
    {
      this.capacity := capacity;
      rp, wp, full, notEmpty := 0, 0, false, false;
    }

    method Update(r: bool, w: bool)
      requires rp < capacity <= 256 && wp < capacity
      modifies this
      ensures View() == UpdateFlags(old(View()), capacity, r, w) && rp < 256 && wp < 256
    {
      if r || w {
        var nrp := if r then (if rp == capacity - 1 then 0 else rp + 1) else rp;
        var nwp := if w then (if wp == capacity - 1 then 0 else wp + 1) else wp;
        notEmpty := if w then true else nrp != nwp;
        full := if r then false else nrp == nwp;
        rp, wp := nrp, nwp;
      }
    }
  }

  /** The flags tell the truth about a buffer that holds `count` items. */
  ghost predicate Truthful(f: Flags, capacity: nat, count: nat) {
    && count <= capacity && f.rp < capacity && f.wp == Wrap(f.rp + count, capacity)
    && (f.notEmpty <==> count > 0) && (f.full <==> count == capacity)
  }

  function NextCount(count: nat, r: bool, w: bool): nat
    requires r ==> count > 0
  {
    count - (if r then 1 else 0) + (if w then 1 else 0)
  }

  /** The flags stay truthful in every update that reads only what is there and has room for what it writes, except
      exactly the one that reads and writes a full buffer: that clears `full` although the buffer stays full. */
  lemma TruthfulUnlessFullExchange(f: Flags, capacity: nat, count: nat, r: bool, w: bool)
    requires Truthful(f, capacity, count) && (r ==> count > 0) && (w ==> r || count < capacity)
    ensures Truthful(UpdateFlags(f, capacity, r, w), capacity, NextCount(count, r, w)) <==>
            !(r && w && count == capacity)
  {
  }

  datatype Access = Access(r: bool, w: bool)

  /** The number of items after a run, or -1 if an empty buffer was read or a full one written. */
  function Count(xs: seq<Access>, capacity: nat): int {
    if xs == [] then 0
    else
      var n := Count(xs[..|xs| - 1], capacity);
      var x := xs[|xs| - 1];
      if n < 0 || (x.r && n == 0) || (x.w && n == capacity) then -1 else NextCount(n, x.r, x.w)
  }

  function FlagsAfter(xs: seq<Access>, capacity: nat): Flags {
    if xs == [] then FLAGS_RESET
    else UpdateFlags(FlagsAfter(xs[..|xs| - 1], capacity), capacity, xs[|xs| - 1].r, xs[|xs| - 1].w)
  }

  /** After any run that never reads it empty nor writes it full, for every capacity, not_empty and full tell whether
      the count is positive and whether it is the capacity. */
  lemma {:induction false} FlagsAlwaysTruthful(xs: seq<Access>, capacity: nat)
    requires 0 < capacity && 0 <= Count(xs, capacity)
    ensures Truthful(FlagsAfter(xs, capacity), capacity, Count(xs, capacity))
  {
    if xs == [] {
    } else {
      var before, x := xs[..|xs| - 1], xs[|xs| - 1];
      FlagsAlwaysTruthful(before, capacity);
      TruthfulUnlessFullExchange(FlagsAfter(before, capacity), capacity, Count(before, capacity), x.r, x.w);
    }
  }

  /** The number of items after a run that may also exchange on a full buffer, or -1 if an empty buffer was read or a
      full one written without being read. */
  function CountExchanging(xs: seq<Access>, capacity: nat): int {
    if xs == [] then 0
    else
      var n := CountExchanging(xs[..|xs| - 1], capacity);
      var x := xs[|xs| - 1];
      if n < 0 || (x.r && n == 0) || (x.w && !x.r && n == capacity) then -1 else NextCount(n, x.r, x.w)
  }

  /** The last update that read or wrote exchanged an item on a full buffer. */
  predicate EndsExchanging(xs: seq<Access>, capacity: nat) {
    xs != [] &&
    var before, x := xs[..|xs| - 1], xs[|xs| - 1];
    if x.r || x.w then x.r && x.w && CountExchanging(before, capacity) == capacity else EndsExchanging(before, capacity)
  }

  /** All that an exchange on a full buffer spoils is the flag `full`. */
  ghost predicate FullUnset(f: Flags, capacity: nat, count: int) {
    count == capacity && f.rp < capacity && f.wp == f.rp && f.notEmpty && !f.full
  }

  lemma FlagsAfterExchange(f: Flags, capacity: nat, r: bool, w: bool)
    requires 0 < capacity && (Truthful(f, capacity, capacity) || FullUnset(f, capacity, capacity)) && (w ==> r)
    ensures
      var f', count := UpdateFlags(f, capacity, r, w), NextCount(capacity, r, w);
      if r && w then FullUnset(f', capacity, count)
      else if r then Truthful(f', capacity, count)
      else f' == f && count == capacity
  {
  }

  /** Exactly when the flags are truthful, over whole runs, exchanges on a full buffer included: unless the last update
      that read or wrote was such an exchange; then only `full` is wrong. */
  lemma {:induction false} FlagsTruthfulIff(xs: seq<Access>, capacity: nat)
    requires 0 < capacity && 0 <= CountExchanging(xs, capacity)
    ensures
      var f, count := FlagsAfter(xs, capacity), CountExchanging(xs, capacity);
      && (Truthful(f, capacity, count) <==> !EndsExchanging(xs, capacity))
      && (EndsExchanging(xs, capacity) ==> FullUnset(f, capacity, count))
  {
    if xs == [] {
    } else {
      var before, x := xs[..|xs| - 1], xs[|xs| - 1];
      FlagsTruthfulIff(before, capacity);
      var f, count := FlagsAfter(before, capacity), CountExchanging(before, capacity);
      if count == capacity {
        FlagsAfterExchange(f, capacity, x.r, x.w);
      } else {
        TruthfulUnlessFullExchange(f, capacity, count, x.r, x.w);
      }
    }
  }
}
