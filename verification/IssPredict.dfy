/** The predictor flags of the golden fetch model over whole walks: the walk's stack and ring are what its own calls and
    returns make of them, so the ring's exact accuracy carries over to ras_faithful_mispredict. */
module IssPredict {
  import opened Ras
  import opened Iss
  import opened IssWalk

  /** What one event does to stack and ring. */
  function OpsOf(t: Transfer): seq<Op> {
    (if t.push then [Push(t.fall)] else []) + if t.pop then [Pop] else []
  }

  /** The calls and returns of the first k steps. */
  function Trail(ss: seq<State>, feed: Feed, k: nat): seq<Op>
    requires k <= |ss|
  {
    if k == 0 then [] else Trail(ss, feed, k - 1) + OpsOf(At(ss, feed, k - 1).t)
  }

  lemma OneOp(r: Ring, ops: seq<Op>, op: Op)
    requires r.Valid()
    ensures Stack(ops + [op]) ==
            match op { case Push(v) => Stack(ops) + [v]
                       case Pop => if Stack(ops) == [] then [] else Stack(ops)[..|Stack(ops)| - 1] }
    ensures After(r, ops + [op]) == match op { case Push(v) => After(r, ops).Push(v) case Pop => After(r, ops).Pop() }
  {
    assert (ops + [op])[..|ops|] == ops;
  }

  lemma AdvanceRing(s: State, ev: Event)
    requires s.Valid() && !(ev.t.push && ev.t.pop)
    ensures
      var s' := Advance(s, ev);
      && s'.ring == (if ev.t.push then s.ring.Push(ev.t.fall) else if ev.t.pop then s.ring.Pop() else s.ring)
      && (ev.t.pop ==> s'.predicted == s.ring.Predict() && s'.mispredict == (s'.predicted != s'.pc))
  {
  }

  /** From an empty stack, stack and ring are those of the trail. */
  lemma {:induction false} TrailMakesState(ss: seq<State>, feed: Feed, k: nat)
    requires Walk(ss, feed) && ProperFeed(feed) && ss[0].stack == [] && k < |ss|
    ensures ss[k].Valid() && ss[k].stack == Stack(Trail(ss, feed, k)) && ss[k].ring == After(ss[0].ring, Trail(ss, feed, k))
  {
    if k == 0 {
    } else {
      var ops, t := Trail(ss, feed, k - 1), At(ss, feed, k - 1).t;
      TrailMakesState(ss, feed, k - 1);
      StepEffect(ss, feed, k - 1);
      assert StepAt(ss, feed, k - 1);
      AdvanceRing(ss[k - 1], At(ss, feed, k - 1));
      if t.push {
        assert OpsOf(t) == [Push(t.fall)];
        OneOp(ss[0].ring, ops, Push(t.fall));
      } else if t.pop {
        assert OpsOf(t) == [Pop];
        OneOp(ss[0].ring, ops, Pop);
      } else {
        assert ops + OpsOf(t) == ops;
      }
    }
  }

  /** The flag at a return of any walk of the model from an empty stack: it goes to the address pushed by its origin,
      the ring predicts what the last writer of its slot pushed, and the flag tells whether the two addresses differ;
      origin and writer are one op if and only if the depth since never exceeded the entry's position plus 4. */
  lemma ReturnFlagExact(ss: seq<State>, feed: Feed, imgs: nat -> Image, k: nat, p: nat, origin: nat, writer: nat)
    requires Decodes(feed, imgs) && Walk(ss, feed) && ss[0].stack == [] && k < |ss| - 1
    requires At(ss, feed, k).t.pop && |ss[k].stack| == p + 1
    requires Origin(Trail(ss, feed, k), origin, p) && LastWriter(Trail(ss, feed, k), writer, p)
    ensures
      var ops := Trail(ss, feed, k);
      && ss[k + 1].pc == ops[origin].v && ss[k + 1].predicted == ops[writer].v
      && ss[k + 1].mispredict == (ops[writer].v != ops[origin].v)
      && (writer == origin <==> StayedBelow(ops, origin, p + 4))
  {
    DecodedFeed(feed, imgs);
    TrailMakesState(ss, feed, k);
    RingAgainstStack(ss[0].ring, Trail(ss, feed, k), p, origin, writer);
    StepEffect(ss, feed, k);
    assert StepAt(ss, feed, k);
    AdvanceRing(ss[k], At(ss, feed, k));
  }

  /** So a shallow return is never flagged. */
  lemma ShallowReturnUnflagged(ss: seq<State>, feed: Feed, imgs: nat -> Image, k: nat, p: nat, origin: nat)
    requires Decodes(feed, imgs) && Walk(ss, feed) && ss[0].stack == [] && k < |ss| - 1
    requires At(ss, feed, k).t.pop && |ss[k].stack| == p + 1
    requires Origin(Trail(ss, feed, k), origin, p) && StayedBelow(Trail(ss, feed, k), origin, p + 4)
    ensures !ss[k + 1].mispredict
  {
    DecodedFeed(feed, imgs);
    TrailMakesState(ss, feed, k);
    var writer := WriterOf(ss[0].ring, Trail(ss, feed, k), p);
    ReturnFlagExact(ss, feed, imgs, k, p, origin, writer);
  }

  /** A return on the empty stack falls through, and the flag tells whether the ring's leftover differs from that. */
  lemma EmptyReturnFallsThrough(ss: seq<State>, feed: Feed, imgs: nat -> Image, k: nat)
    requires Decodes(feed, imgs) && Walk(ss, feed) && k < |ss| - 1 && At(ss, feed, k).t.pop && ss[k].stack == []
    ensures ss[k + 1].pc == Plus(ss[k].pc, Length(At(ss, feed, k).entry)) && ss[k + 1].stack == []
    ensures ss[k].Valid() && ss[k + 1].mispredict == (ss[k].ring.Predict() != ss[k + 1].pc)
  {
    DecodedFeed(feed, imgs);
    StepEffect(ss, feed, k);
    assert StepAt(ss, feed, k);
    AdvanceRing(ss[k], At(ss, feed, k));
  }
}
