/**
 * The single-slot notice ("toast"): one global reference to the notice on
 * screen, shown with a slide-in, ended by a click or a four-second timer
 * with a slide-out, and dropped when the slide-out animation ends.
 */
module Toast {
  /** What the global `toastContainer` refers to. */
  datatype ToastState =
    | Absent                       // `toastContainer === null`
    | Visible(message: string)     // attached, sliding in or shown
    | Exiting(message: string)     // attached, sliding out

  class ToastSlot {
    /** The notice the global reference points at. */
    var state: ToastState
    /** Notices still attached to the page that the reference no longer points at. */
    var detached: nat
    /** How many notices have been created; the latest one is number `shown`. */
    var shown: nat

    /** At most one notice is on the page, and it is the one the slot holds. */
    predicate SingleNotice()
      reads this
    {
      detached == 0
    }

    /** The page as loaded: no notice. */
    constructor ()
      ensures state == Absent && detached == 0 && shown == 0
    {
      state := Absent;
      detached := 0;
      shown := 0;
    }

    /** Taking the current notice off the page before a new copy is handled. */
    method Remove()
      modifies this
      ensures state == Absent && detached == old(detached) && shown == old(shown)
    {
      if state != Absent {
        state := Absent;
      }
    }

    /**
     * `generateToastMessage`: a new notice is attached and the slot points
     * at it. A notice the slot still held stays on the page, detached.
     * The result numbers the new notice, for the timer it sets.
     */
    method Show(msg: string) returns (id: nat)
      modifies this
      ensures state == Visible(msg)
      ensures detached == old(detached) + (if old(state) == Absent then 0 else 1)
      ensures shown == old(shown) + 1 && id == shown
    {
      if state != Absent {
        detached := detached + 1;
      }
      state := Visible(msg);
      shown := shown + 1;
      id := shown;
    }

    /** A click on the notice starts its slide-out. */
    method Click()
      requires state != Absent
      modifies this
      ensures state == Exiting(old(state).message)
      ensures detached == old(detached) && shown == old(shown)
    {
      state := Exiting(state.message);
    }

    /**
     * A four-second timer fires. It does nothing when the slot is empty;
     * otherwise it slides out whatever notice the slot holds now, which
     * need not be the one that set the timer.
     */
    method TimeoutElapsed()
      modifies this
      ensures state == (if old(state) == Absent then Absent else Exiting(old(state).message))
      ensures detached == old(detached) && shown == old(shown)
    {
      if state != Absent {
        state := Exiting(state.message);
      }
    }

    /**
     * The timer as evidently intended: the timer of notice `id` slides out
     * that notice only, and does nothing once a newer one has replaced it.
     */
    method TimeoutElapsedIntended(id: nat)
      modifies this
      ensures state == (if old(state) == Absent || id != shown then old(state) else Exiting(old(state).message))
      ensures detached == old(detached) && shown == old(shown)
    {
      if state != Absent && id == shown {
        state := Exiting(state.message);
      }
    }

    /** The slide-out animation ends: the notice is removed and the slot emptied. */
    method AnimationEnd()
      requires state.Exiting?
      modifies this
      ensures state == Absent && detached == old(detached) && shown == old(shown)
    {
      state := Absent;
    }
  }

  /**
   * The first notice's timer fires after a second notice replaced it: the
   * timer ends the second notice, before its own four seconds are up.
   */
  method StaleTimerEndsNewerToast(first: string, second: string) returns (after: ToastState)
    ensures after == Exiting(second)
  {
    var slot := new ToastSlot();
    var firstId := slot.Show(first);
    slot.Remove();
    var secondId := slot.Show(second);
    slot.TimeoutElapsed();  // the timer `first` set
    after := slot.state;
  }

  /** With the intended timer, the first notice's timer leaves the second one on screen. */
  method StaleTimerSparesNewerToast(first: string, second: string) returns (after: ToastState)
    ensures after == Visible(second)
  {
    var slot := new ToastSlot();
    var firstId := slot.Show(first);
    slot.Remove();
    var secondId := slot.Show(second);
    slot.TimeoutElapsedIntended(firstId);
    after := slot.state;
  }

  /** With the intended timer, a notice's own timer still ends it. */
  method OwnTimerEndsToast(msg: string) returns (after: ToastState)
    ensures after == Exiting(msg)
  {
    var slot := new ToastSlot();
    var id := slot.Show(msg);
    slot.TimeoutElapsedIntended(id);
    after := slot.state;
  }

  /** Showing a notice over one that was not removed leaves two on the page. */
  method ShowWithoutRemoveLeavesTwo(first: string, second: string) returns (onPage: nat)
    ensures onPage == 2
  {
    var slot := new ToastSlot();
    var firstId := slot.Show(first);
    var secondId := slot.Show(second);
    onPage := slot.detached + 1;
  }
}
