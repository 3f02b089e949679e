/**
 * AsyncFrame: one half of a parent/child task pair.  The parent half is
 * ticked by the host scheduler; the child half runs once on its own thread.
 * The three handshake flags live on the objects and are updated in place;
 * View() reads both halves of a pair as a Handshake.PairState, and every
 * method is tied to the matching Handshake step.
 */
module AsyncFrame {
  import opened Handshake

  class Frame {
    /** `parent` in the source: the role, fixed at construction. */
    const isParent: bool
    /** `parentFrame`: set only on a child, to the parent that built it. */
    const parentFrame: Frame?
    /** `childFrame`: set only on a parent, to the child it cloned. */
    var childFrame: Frame?
    var end: bool
    var persist: bool
    var childend: bool
    /** The host scheduler's handle for this half has been cancelled. */
    var cancelled: bool
    /** The host scheduler was asked to start this half asynchronously. */
    var launched: bool

    /** A parent together with the child it built, each pointing at the other. */
    ghost predicate PairValid()
      reads this, childFrame
    {
      && isParent
      && parentFrame == null
      && childFrame != null
      && childFrame != this
      && !childFrame.isParent
      && childFrame.parentFrame == this
      && childFrame.childFrame == null
    }

    /** A child whose parent holds it as its child. */
    ghost predicate ChildValid()
      reads this, parentFrame, (if parentFrame == null then null else parentFrame.childFrame)
    {
      && !isParent
      && parentFrame != null
      && parentFrame.childFrame == this
      && parentFrame.PairValid()
    }

    /** The child this frame holds, as a set: empty on a child. */
    function ChildSet(): set<Frame>
      reads this
    {
      if childFrame == null then {} else {childFrame}
    }

    /** The parent this frame points at, as a set: empty on a parent. */
    function ParentSet(): set<Frame>
    {
      if parentFrame == null then {} else {parentFrame}
    }

    /** The flags of the pair whose parent is this frame. */
    ghost function View(): PairState
      reads this, childFrame
      requires PairValid()
    {
      PairState(end, persist, childFrame.childend, cancelled, childFrame.cancelled)
    }

    /** Parent-role construction: builds exactly one child that points back,
        and launches it. */
    constructor Parent()
      ensures PairValid() && fresh(childFrame)
      ensures View() == Initial
      ensures childFrame.launched && !launched
    {
      isParent := true;
      parentFrame := null;
      end, persist, childend, cancelled, launched := false, false, false, false, false;
      new;
      var c := new Frame.Child(this);
      childFrame := c;
      c.launched := true;
    }

    /** Child-role construction: records its parent. */
    constructor Child(parent: Frame)
      ensures !isParent && parentFrame == parent && childFrame == null
      ensures !end && !persist && !childend && !cancelled && !launched
    {
      isParent := false;
      parentFrame := parent;
      childFrame := null;
      end, persist, childend, cancelled, launched := false, false, false, false, false;
    }

    /** stop(): called on the parent when its child finishes; sets end only
        when persist is unset. */
    method Stop()
      modifies this`end
      ensures end == (old(end) || !persist)
    {
      if !persist {
        end := true;
      }
    }

    /** childStop(): a parent forwards to its child; a child sets childend. */
    method ChildStop()
      requires isParent ==> PairValid()
      modifies (if isParent then ChildSet() else {this})`childend
      ensures isParent ==> View() == Apply(old(View()), Step.ChildStop) && childend == old(childend)
      ensures !isParent ==> childend
      ensures !isParent && old(ChildValid()) ==>
                ChildValid() && parentFrame.View() == Apply(old(parentFrame.View()), Step.ChildStop)
      decreases if isParent then 1 else 0
    {
      if isParent {
        childFrame.ChildStop();
      } else {
        childend := true;
      }
    }

    /** setPersist(): a child forwards to its parent; a parent sets persist. */
    method SetPersist()
      requires !isParent ==> ChildValid()
      modifies (if isParent then {this} else ParentSet())`persist
      ensures isParent ==> persist
      ensures !isParent ==> parentFrame.persist
      ensures isParent && old(PairValid()) ==> PairValid() && View() == Apply(old(View()), Step.SetPersist)
      ensures !isParent ==> ChildValid() && parentFrame.View() == Apply(old(parentFrame.View()), Step.SetPersist)
      decreases if isParent then 0 else 1
    {
      if isParent {
        persist := true;
      } else {
        parentFrame.SetPersist();
      }
    }

    /** cancel(): cancels this half's handle; a parent also asks its child to
        stop and cancels the child's handle.  A child touches only itself. */
    method Cancel()
      requires isParent ==> PairValid()
      modifies this`cancelled, ChildSet()`cancelled, ChildSet()`childend
      ensures cancelled
      ensures isParent ==> View() == Apply(old(View()), Step.CancelParent)
      ensures !isParent && old(ChildValid()) ==>
                ChildValid() && parentFrame.View() == Apply(old(parentFrame.View()), Step.CancelChild)
      decreases if isParent then 1 else 0
    {
      cancelled := true;
      if isParent {
        ChildStop();
        childFrame.Cancel();
      }
    }

    /** The parent's run() after parentRun: cancels the pair iff end is set. */
    method ParentTick()
      requires PairValid()
      modifies this`cancelled, ChildSet()`cancelled, ChildSet()`childend
      ensures View() == Apply(old(View()), Step.ParentTick)
      ensures cancelled <==> old(cancelled) || end
    {
      if end {
        Cancel();
      }
    }

    /** The child's run() after childRun: calls the parent's stop() once. */
    method ChildCompleted()
      requires ChildValid()
      modifies parentFrame`end
      ensures parentFrame.View() == Apply(old(parentFrame.View()), Step.ChildCompleted)
    {
      parentFrame.Stop();
    }
  }
}
