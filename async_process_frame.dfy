/**
 * AsyncProcessFrame: a task pair whose halves each own a FIFO queue.  The
 * child half polls its queue one item per sleep interval until it is told
 * to stop; the parent half drains a bounded batch of its queue on every
 * scheduler tick.  sendData() feeds the child's queue from the parent,
 * receiveData() feeds the parent's queue from the child.
 *
 * The same pair of queues, with other configuration keys and without the
 * finalize hook, is the MessageAsyncFrame.
 */
module AsyncProcessFrame {
  import opened Wrappers
  import opened JavaLong
  import opened Handshake
  import opened AsyncFrame
  import opened Batching

  /** The plugin configuration as the pair sees it: a key is either set to a
      long or missing (getLong returns null). */
  type Config = map<string, Long>

  /** conf.getLong(key), falling back to `default` when it is null. */
  function ConfigLong(cfg: Config, key: string, default: Long): (r: Long)
    ensures key in cfg ==> r == cfg[key]
    ensures key !in cfg ==> r == default
  {
    if key in cfg then cfg[key] else default
  }

  const DefaultCount: Long := 50
  const DefaultSleep: Long := 1

  /** The queue left after `ticks` parent ticks with no new arrivals. */
  function AfterTicks<T>(q: seq<T>, count: Long, ticks: nat): seq<T>
    decreases ticks
  {
    if ticks == 0 then q
    else AfterTicks(q[Min(|q|, DrainCap(count))..], count, ticks - 1)
  }

  /** Successive ticks with no arrivals take consecutive batches, in order:
      after t ticks exactly the first t batches are gone. */
  lemma {:induction false} AfterTicksDrops<T>(q: seq<T>, count: Long, ticks: nat)
    ensures AfterTicks(q, count, ticks) == q[Min(|q|, ticks * DrainCap(count))..]
    decreases ticks
  {
    if ticks > 0 {
      var cap := DrainCap(count);
      var n := Min(|q|, cap);
      var before: nat := (ticks - 1) * cap;
      assert ticks * cap == before + cap;
      AfterTicksDrops(q[n..], count, ticks - 1);
      var m := Min(|q| - n, before);
      assert q[n..][m..] == q[n + m..];
      if |q| <= cap {
        assert n + m == |q|;
      } else {
        assert n + m == Min(|q|, before + cap);
      }
    }
  }

  /** A queue of length at most t * DrainCap(count) is empty after t ticks. */
  lemma TicksEmptyQueue<T>(q: seq<T>, count: Long, ticks: nat)
    requires |q| <= ticks * DrainCap(count)
    ensures AfterTicks(q, count, ticks) == []
  {
    AfterTicksDrops(q, count, ticks);
  }

  /** Taking the next element after a prefix extends the prefix by one. */
  lemma PrefixGrows<T>(q: seq<T>, p: seq<T>)
    requires |p| < |q| && p == q[..|p|]
    ensures p + [q[|p|]] == q[..|p| + 1] && q[|p|..][1..] == q[|p| + 1..]
  {
  }

  class ProcessFrame<T> {
    /** The AsyncFrame part: role, links and handshake flags. */
    const frame: Frame
    /** `(AsyncProcessFrame) parentFrame`: set only on a child. */
    const parentSide: ProcessFrame?<T>
    /** `(AsyncProcessFrame) childFrame`: set only on a parent. */
    var childSide: ProcessFrame?<T>
    var queue: seq<T>
    const count: Long
    const sleep: Long
    /** finalizeProcess() has been called. */
    var finalized: bool

    /** A parent half and the child half it built, each linked to the other
        at both levels. */
    ghost predicate PairValid()
      reads this, frame, frame.childFrame, childSide
    {
      && frame.PairValid()
      && parentSide == null
      && childSide != null
      && childSide != this
      && childSide.frame == frame.childFrame
      && childSide.parentSide == this
    }

    /** A child half held by its parent half. */
    ghost predicate ChildValid()
      reads this, parentSide
      reads if parentSide == null then {} else {parentSide.frame, parentSide.childSide}
      reads if parentSide == null then null else parentSide.frame.childFrame
    {
      && parentSide != null
      && parentSide.childSide == this
      && parentSide.PairValid()
    }

    /** The parent-role constructor: builds its child half, which starts at
        once; both halves read the two settings with the same defaults. */
    constructor Parent(cfg: Config, countKey: string, sleepKey: string)
      ensures PairValid() && fresh(frame) && fresh(childSide)
      ensures frame.View() == Initial && childSide.frame.launched
      ensures queue == [] && childSide.queue == []
      ensures count == childSide.count == ConfigLong(cfg, countKey, DefaultCount)
      ensures sleep == childSide.sleep == ConfigLong(cfg, sleepKey, DefaultSleep)
      ensures !finalized && !childSide.finalized
    {
      var f := new Frame.Parent();
      frame := f;
      parentSide := null;
      queue := [];
      count := ConfigLong(cfg, countKey, DefaultCount);
      sleep := ConfigLong(cfg, sleepKey, DefaultSleep);
      finalized := false;
      new;
      childSide := new ProcessFrame.Child(this, f.childFrame, cfg, countKey, sleepKey);
    }

    /** The child-role constructor. */
    constructor Child(parent: ProcessFrame<T>, half: Frame, cfg: Config, countKey: string, sleepKey: string)
      ensures frame == half && parentSide == parent
      ensures childSide == null && queue == [] && !finalized
      ensures count == ConfigLong(cfg, countKey, DefaultCount)
      ensures sleep == ConfigLong(cfg, sleepKey, DefaultSleep)
    {
      frame := half;
      parentSide := parent;
      childSide := null;
      queue := [];
      count := ConfigLong(cfg, countKey, DefaultCount);
      sleep := ConfigLong(cfg, sleepKey, DefaultSleep);
      finalized := false;
    }

    /** parentRun(): polls items in FIFO order until the queue is empty or
        the batch bound of `count` is reached.  Returns the polled items in
        the order they were handed to executeReceive. */
    method ParentRun() returns (polled: seq<T>)
      modifies this`queue
      ensures var n := Min(|old(queue)|, DrainCap(count));
              polled == old(queue)[..n] && queue == old(queue)[n..]
    {
      var cnt: Long := count;
      polled := [];
      while queue != []
        invariant |polled| <= Min(|old(queue)|, DrainCap(count))
        invariant polled == old(queue)[..|polled|]
        invariant queue == old(queue)[|polled|..]
        invariant cnt as int == CounterAfter(count, |polled|)
        invariant polled == [] || cnt > 0
        decreases |queue|
      {
        CounterStep(count, |polled|);
        var data := Poll();
        PrefixGrows(old(queue), polled);
        polled := polled + [data.value];
        cnt := Decrement(cnt);
        CounterExpiresAtCap(count, |polled|);
        if cnt <= 0 {
          break;
        }
      }
    }

    /** One tick of the parent's run(): parentRun, then cancel the pair iff
        the child's completion has set end. */
    method Tick() returns (polled: seq<T>)
      requires PairValid()
      modifies this`queue, frame`cancelled, frame.ChildSet()`cancelled, frame.ChildSet()`childend
      ensures PairValid()
      ensures var n := Min(|old(queue)|, DrainCap(count));
              polled == old(queue)[..n] && queue == old(queue)[n..]
      ensures frame.View() == Apply(old(frame.View()), Step.ParentTick)
    {
      polled := ParentRun();
      frame.ParentTick();
    }

    /** childRun(), over its first `rounds` passes: setPersist() first, then
        each pass leaves if childend is set, else polls at most one item for
        executeProcess and sleeps.  On leaving, finalizeProcess() runs when
        `finalize` is set (AsyncProcessFrame) and not otherwise
        (MessageAsyncFrame).  A negative `sleep` makes Thread.sleep throw at
        the end of the first pass: the loop is `aborted` there, without
        finalizeProcess(). */
    method ChildRun(rounds: nat, finalize: bool) returns (processed: seq<T>, left: bool, aborted: bool)
      requires ChildValid()
      modifies this`queue, this`finalized, parentSide.frame`persist
      ensures ChildValid()
      ensures parentSide.frame.View() == Apply(old(parentSide.frame.View()), Step.SetPersist)
      ensures left == (frame.childend && rounds > 0)
      ensures aborted == (!frame.childend && rounds > 0 && sleep < 0)
      ensures var passes := if sleep < 0 then Min(rounds, 1) else rounds;
              var k := if frame.childend then 0 else Min(passes, |old(queue)|);
              processed == old(queue)[..k] && queue == old(queue)[k..]
      ensures finalized == (old(finalized) || (left && finalize))
    {
      frame.SetPersist();
      ghost var persisted := parentSide.frame.View();
      processed := [];
      left := false;
      aborted := false;
      var round := 0;
      while round < rounds && !aborted
        invariant 0 <= round <= rounds
        invariant |processed| == Min(round, |old(queue)|)
        invariant processed == old(queue)[..|processed|]
        invariant queue == old(queue)[|processed|..]
        invariant round > 0 ==> !frame.childend
        invariant sleep < 0 ==> round <= 1
        invariant aborted <==> sleep < 0 && round == 1
        invariant finalized == old(finalized)
        invariant ChildValid() && parentSide.frame.View() == persisted
        decreases rounds - round
      {
        if frame.childend {
          left := true;
          break;
        }
        var item := Poll();
        if item.Some? {
          PrefixGrows(old(queue), processed);
          processed := processed + [item.value];
        }
        round := round + 1;
        if sleep < 0 {
          aborted := true;
        }
      }
      if left && finalize {
        finalized := true;
      }
    }

    /** The child half's whole run(): childRun, then the parent's stop().
        Because childRun set persist first, that stop() leaves the parent's
        end flag as it was: a finished child never ends its parent.  An
        aborted childRun throws past stop(), which then never runs. */
    method ChildTask(rounds: nat, finalize: bool) returns (processed: seq<T>, left: bool, aborted: bool)
      requires ChildValid()
      modifies this`queue, this`finalized, parentSide.frame`persist, parentSide.frame`end
      ensures ChildValid()
      ensures parentSide.frame.persist
      ensures parentSide.frame.end == old(parentSide.frame.end)
      ensures left == (frame.childend && rounds > 0)
      ensures aborted == (!frame.childend && rounds > 0 && sleep < 0)
      ensures var passes := if sleep < 0 then Min(rounds, 1) else rounds;
              var k := if frame.childend then 0 else Min(passes, |old(queue)|);
              processed == old(queue)[..k] && queue == old(queue)[k..]
      ensures left ==> parentSide.frame.View()
                         == Apply(Apply(old(parentSide.frame.View()), Step.SetPersist), Step.ChildCompleted)
      ensures !left ==> parentSide.frame.View() == Apply(old(parentSide.frame.View()), Step.SetPersist)
    {
      processed, left, aborted := ChildRun(rounds, finalize);
      if left {
        frame.ChildCompleted();
      }
    }

    /** poll(): removes and returns the head of this half's queue, or
        nothing when it is empty. */
    method Poll() returns (item: Option<T>)
      modifies this`queue
      ensures old(queue) == [] ==> item == None && queue == []
      ensures old(queue) != [] ==> item == Some(old(queue)[0]) && queue == old(queue)[1..]
    {
      if queue == [] {
        item := None;
      } else {
        item := Some(queue[0]);
        queue := queue[1..];
      }
    }

    /** addData(): appends to this half's own queue. */
    method AddData(data: T)
      modifies this`queue
      ensures queue == old(queue) + [data]
    {
      queue := queue + [data];
    }

    /** receiveData(): appends to the parent half's queue.  On a parent half
        the parent link is null and the call fails (false). */
    method ReceiveData(data: T) returns (ok: bool)
      requires !frame.isParent ==> ChildValid()
      modifies (if frame.isParent then {} else {parentSide})`queue
      ensures ok == !frame.isParent
      ensures ok ==> parentSide.queue == old(parentSide.queue) + [data] && ChildValid()
    {
      if frame.isParent {
        ok := false;
      } else {
        parentSide.AddData(data);
        ok := true;
      }
    }

    /** sendData(): appends to the child half's queue.  On a child half the
        child link is null and the call fails (false). */
    method SendData(data: T) returns (ok: bool)
      requires frame.isParent ==> PairValid()
      modifies (if frame.isParent then {childSide} else {})`queue
      ensures ok == frame.isParent
      ensures ok ==> childSide.queue == old(childSide.queue) + [data] && PairValid()
      ensures ok ==> queue == old(queue)
    {
      if frame.isParent {
        childSide.AddData(data);
        ok := true;
      } else {
        ok := false;
      }
    }
  }
}
