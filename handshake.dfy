/**
 * The stop/persist handshake of a parent/child task pair, as a pure state
 * machine.  Every `synchronized` block of AsyncFrame (and the scheduler's
 * cancel it triggers) is one atomic Step over the flags of BOTH halves.
 */
module Handshake {

  /** The flags of one pair: the parent's `end` and `persist`, the child's
      `childend`, and whether each half's schedule handle was cancelled. */
  datatype PairState = PairState(
    end: bool,
    persist: bool,
    childend: bool,
    parentCancelled: bool,
    childCancelled: bool)

  /** Both halves right after the parent's constructor built its child. */
  const Initial := PairState(false, false, false, false, false)

  datatype Step =
    | ChildCompleted  // the child's run() returned from childRun and called the parent's stop()
    | ChildStop       // childStop(), on either half
    | SetPersist      // setPersist(), on either half
    | ParentTick      // the parent's run() after parentRun: cancel itself iff end is set
    | CancelParent    // cancel() on the parent
    | CancelChild     // cancel() on the child

  function Apply(s: PairState, step: Step): PairState
  {
    match step
    case ChildCompleted => if s.persist then s else s.(end := true)
    case ChildStop => s.(childend := true)
    case SetPersist => s.(persist := true)
    case ParentTick => if s.end then CancelBoth(s) else s
    case CancelParent => CancelBoth(s)
    case CancelChild => s.(childCancelled := true)
  }

  /** cancel() on the parent: its own handle, then childStop() and the child's cancel(). */
  function CancelBoth(s: PairState): PairState
  {
    s.(parentCancelled := true, childend := true, childCancelled := true)
  }

  /** The state after performing `steps` in order, starting from `s`. */
  function Run(s: PairState, steps: seq<Step>): PairState
    decreases |steps|
  {
    if steps == [] then s else Run(Apply(s, steps[0]), steps[1..])
  }

  /** Every flag set in `s` is still set in `t`. */
  predicate FlagsKept(s: PairState, t: PairState)
  {
    && (s.end ==> t.end)
    && (s.persist ==> t.persist)
    && (s.childend ==> t.childend)
    && (s.parentCancelled ==> t.parentCancelled)
    && (s.childCancelled ==> t.childCancelled)
  }

  /** True iff some ChildCompleted step of `steps` is taken while persist is unset. */
  predicate CompletesUnpersisted(s: PairState, steps: seq<Step>)
    decreases |steps|
  {
    steps != [] &&
    ((steps[0] == ChildCompleted && !s.persist) || CompletesUnpersisted(Apply(s, steps[0]), steps[1..]))
  }

  /** Running a concatenation is running its parts one after the other. */
  lemma {:induction false} RunAppend(s: PairState, a: seq<Step>, b: seq<Step>)
    ensures Run(s, a + b) == Run(Run(s, a), b)
    decreases |a|
  {
    if a != [] {
      assert (a + b)[0] == a[0] && (a + b)[1..] == a[1..] + b;
      RunAppend(Apply(s, a[0]), a[1..], b);
    } else {
      assert a + b == b;
    }
  }

  /** No step ever resets a flag: end, persist, childend and both cancellations
      only ever go from false to true. */
  lemma {:induction false} FlagsOnlyRise(s: PairState, steps: seq<Step>)
    ensures FlagsKept(s, Run(s, steps))
    decreases |steps|
  {
    if steps != [] {
      var t := Apply(s, steps[0]);
      StepKeepsFlags(s, steps[0]);
      FlagsOnlyRise(t, steps[1..]);
      assert Run(s, steps) == Run(t, steps[1..]);
    }
  }

  /** A single step never resets a flag. */
  lemma StepKeepsFlags(s: PairState, step: Step)
    ensures FlagsKept(s, Apply(s, step))
  {
  }

  /** Once persist is set and end is not, end stays unset whatever happens:
      the child's completion no longer stops the parent. */
  lemma {:induction false} PersistBlocksAutoStop(s: PairState, steps: seq<Step>)
    requires s.persist && !s.end
    ensures Run(s, steps).persist && !Run(s, steps).end
    decreases |steps|
  {
    if steps != [] {
      PersistBlocksAutoStop(Apply(s, steps[0]), steps[1..]);
    }
  }

  /** The parent's end flag becomes set exactly when the child completes while
      persist is still unset (both directions). */
  lemma {:induction false} EndIffUnpersistedCompletion(s: PairState, steps: seq<Step>)
    requires !s.end
    ensures Run(s, steps).end <==> CompletesUnpersisted(s, steps)
    decreases |steps|
  {
    if steps != [] {
      var t := Apply(s, steps[0]);
      if t.end {
        assert steps[0] == ChildCompleted && !s.persist;
        FlagsOnlyRise(t, steps[1..]);
      } else {
        EndIffUnpersistedCompletion(t, steps[1..]);
      }
    }
  }

  /** Without persist, a completed child makes the parent's next tick cancel
      both halves. */
  lemma {:induction false} CompletionThenTickCancels(s: PairState, between: seq<Step>)
    requires !s.persist
    ensures var t := Run(Apply(s, ChildCompleted), between);
            Apply(t, ParentTick).parentCancelled && Apply(t, ParentTick).childCancelled
            && Apply(t, ParentTick).childend
  {
    FlagsOnlyRise(Apply(s, ChildCompleted), between);
  }

  /** childStop() twice in a row has the same effect as once, wherever it
      appears in a trace. */
  lemma {:induction false} ChildStopIdempotent(s: PairState, before: seq<Step>, after: seq<Step>)
    ensures Run(s, before + [ChildStop, ChildStop] + after) == Run(s, before + [ChildStop] + after)
  {
    var m := Run(s, before);
    RunAppend(s, before + [ChildStop, ChildStop], after);
    RunAppend(s, before, [ChildStop, ChildStop]);
    RunAppend(s, before + [ChildStop], after);
    RunAppend(s, before, [ChildStop]);
    assert Run(m, [ChildStop, ChildStop]) == Apply(Apply(m, ChildStop), ChildStop);
    assert Run(m, [ChildStop]) == Apply(m, ChildStop);
  }

  /** Cancelling the parent always leaves the child asked to stop and cancelled. */
  lemma {:induction false} ParentCancelCascades(s: PairState, steps: seq<Step>)
    requires Run(s, steps).parentCancelled
    requires !s.parentCancelled
    ensures Run(s, steps).childend && Run(s, steps).childCancelled
    decreases |steps|
  {
    var t := Apply(s, steps[0]);
    if t.parentCancelled {
      FlagsOnlyRise(t, steps[1..]);
    } else {
      ParentCancelCascades(t, steps[1..]);
    }
  }
}
