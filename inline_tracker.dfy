/** The activity tracker written inline in TutorialGame.jsx and, with one
    difference, in WordMeaningCheck.jsx: page visibility, window blur and
    focus, user activity and a one-second idle poll with a strict 5000 ms
    threshold. The two copies differ only in the visibility handler: the
    tutorial logs `page_return` only when the page was inactive, the meaning
    check on every return to visibility. The component's `isSubmitted` ref is
    passed in as `submitted`; the logged events are recorded in `logged`. */
module InlineTracker {

  const IdleThreshold: int := 5000

  datatype Variant = TutorialCopy | MeaningCheckCopy

  datatype InlineEvent = PageLeave | PageReturn | MouseInactiveStart | MouseActive

  predicate IsIdleEvent(e: InlineEvent) {
    e.MouseInactiveStart? || e.MouseActive?
  }

  /** The idle events of a log, in order. */
  function IdleTrace(log: seq<InlineEvent>): (t: seq<InlineEvent>)
    ensures forall i :: 0 <= i < |t| ==> IsIdleEvent(t[i])
    decreases |log|
  {
    if log == [] then []
    else IdleTrace(log[..|log| - 1]) + (if IsIdleEvent(log[|log| - 1]) then [log[|log| - 1]] else [])
  }

  lemma IdleTraceAppend(log: seq<InlineEvent>, e: InlineEvent)
    ensures IdleTrace(log + [e]) == IdleTrace(log) + (if IsIdleEvent(e) then [e] else [])
  {
    assert (log + [e])[..|log + [e]| - 1] == log;
  }

  /** Every `mouse_active` directly follows a `mouse_inactive_start`: an
      idle stretch is closed at most once. (Hiding or leaving the window
      clears the idle flag silently, so two starts may follow each other.) */
  predicate ClosedOnce(t: seq<InlineEvent>) {
    forall i :: 0 <= i < |t| ==> t[i].MouseActive? ==> i > 0 && t[i - 1].MouseInactiveStart?
  }

  class Tracker {
    const variant: Variant
    /** The effect's local `isPageActive`. */
    var isPageActive: bool
    /** The effect's local `currentFocus`. */
    var currentFocus: bool
    var isInactive: bool
    var lastUserActivity: int
    var ignoreNextBlur: bool
    var logged: seq<InlineEvent>

    /** The idle flag is set only right after a logged idle start, and each
        idle stretch is reported closed at most once. */
    predicate Valid()
      reads this
    {
      ClosedOnce(IdleTrace(logged)) &&
      (isInactive ==> IdleTrace(logged) != [] && IdleTrace(logged)[|IdleTrace(logged)| - 1].MouseInactiveStart?)
    }

    constructor (v: Variant, now: int)
      ensures Valid()
      ensures variant == v && isPageActive && currentFocus && !isInactive
      ensures lastUserActivity == now && !ignoreNextBlur && logged == []
    {
      variant := v;
      isPageActive := true;
      currentFocus := true;
      isInactive := false;
      lastUserActivity := now;
      ignoreNextBlur := false;
      logged := [];
    }

    /** Logs an event that is not an idle event. */
    method LogPageEvent(e: InlineEvent)
      requires Valid() && !IsIdleEvent(e)
      modifies this
      ensures Valid() && logged == old(logged) + [e] && IdleTrace(logged) == old(IdleTrace(logged))
      ensures isPageActive == old(isPageActive) && currentFocus == old(currentFocus) && isInactive == old(isInactive)
      ensures lastUserActivity == old(lastUserActivity) && ignoreNextBlur == old(ignoreNextBlur)
    {
      IdleTraceAppend(logged, e);
      logged := logged + [e];
    }

    /** The `visibilitychange` handler: hiding always logs a leave and clears
        the idle flag; showing logs a return (the tutorial copy only when the
        page was inactive) and records activity. */
    method HandleVisibilityChange(now: int, hidden: bool)
      requires Valid()
      modifies this
      ensures Valid()
      ensures hidden ==> (!isPageActive && !isInactive && logged == old(logged) + [PageLeave] &&
        lastUserActivity == old(lastUserActivity))
      ensures var back := !hidden && (variant == MeaningCheckCopy || !old(isPageActive));
        && (back ==> (isPageActive && lastUserActivity == now && isInactive == old(isInactive) &&
              logged == old(logged) + [PageReturn]))
        && (!hidden && !back ==> (isPageActive == old(isPageActive) && lastUserActivity == old(lastUserActivity) &&
              isInactive == old(isInactive) && logged == old(logged)))
      ensures currentFocus == old(currentFocus) && ignoreNextBlur == old(ignoreNextBlur)
    {
      if hidden {
        isPageActive := false;
        isInactive := false;
        LogPageEvent(PageLeave);
      } else if variant == MeaningCheckCopy || !isPageActive {
        isPageActive := true;
        lastUserActivity := now;
        LogPageEvent(PageReturn);
      }
    }

    /** The patched `window.alert`: the blur it causes is to be ignored. */
    method Alert()
      modifies this
      ensures ignoreNextBlur
      ensures isPageActive == old(isPageActive) && currentFocus == old(currentFocus) && isInactive == old(isInactive)
      ensures lastUserActivity == old(lastUserActivity) && logged == old(logged)
    {
      ignoreNextBlur := true;
    }

    /** The window `blur` handler: right after an alert it only consumes the
        one-shot flag; otherwise focus is lost and, if the page was active, it
        becomes inactive with a logged leave. */
    method HandleWindowBlur()
      requires Valid()
      modifies this
      ensures Valid()
      ensures old(ignoreNextBlur) ==> (!ignoreNextBlur && isPageActive == old(isPageActive) &&
        currentFocus == old(currentFocus) && isInactive == old(isInactive) && logged == old(logged))
      ensures !old(ignoreNextBlur) ==> (!ignoreNextBlur && !currentFocus && !isPageActive &&
        (old(isPageActive) ==> !isInactive && logged == old(logged) + [PageLeave]) &&
        (!old(isPageActive) ==> isInactive == old(isInactive) && logged == old(logged)))
      ensures lastUserActivity == old(lastUserActivity)
    {
      if ignoreNextBlur {
        ignoreNextBlur := false;
        return;
      }
      currentFocus := false;
      if isPageActive {
        isPageActive := false;
        isInactive := false;
        LogPageEvent(PageLeave);
      }
    }

    /** The window `focus` handler: regaining focus on a visible page makes
        it active, records activity and logs a return. */
    method HandleWindowFocus(now: int, hidden: bool)
      requires Valid()
      modifies this
      ensures Valid()
      ensures currentFocus
      ensures var back := !old(currentFocus) && !hidden;
        && (back ==> isPageActive && lastUserActivity == now && logged == old(logged) + [PageReturn])
        && (!back ==> (isPageActive == old(isPageActive) && lastUserActivity == old(lastUserActivity) &&
              logged == old(logged)))
      ensures isInactive == old(isInactive) && ignoreNextBlur == old(ignoreNextBlur)
    {
      var wasFocused := currentFocus;
      currentFocus := true;
      if !wasFocused && !hidden {
        isPageActive := true;
        lastUserActivity := now;
        LogPageEvent(PageReturn);
      }
    }

    /** Mouse move, key press or click: ignored on an inactive page or once
        submitted; otherwise activity is recorded and an idle stretch ends
        with one `mouse_active`. */
    method HandleUserActivity(now: int, submitted: bool)
      requires Valid()
      modifies this
      ensures Valid()
      ensures !old(isPageActive) || submitted ==> (lastUserActivity == old(lastUserActivity) &&
        isInactive == old(isInactive) && logged == old(logged))
      ensures old(isPageActive) && !submitted ==> (lastUserActivity == now && !isInactive &&
        logged == old(logged) + (if old(isInactive) then [MouseActive] else []))
      ensures isPageActive == old(isPageActive) && currentFocus == old(currentFocus) && ignoreNextBlur == old(ignoreNextBlur)
    {
      if !isPageActive || submitted {
        return;
      }
      lastUserActivity := now;
      if isInactive {
        IdleTraceAppend(logged, MouseActive);
        logged := logged + [MouseActive];
        isInactive := false;
      }
    }

    /** The one-second idle poll: on an active page, before submission, and
        not already idle, more than 5000 ms without activity starts one idle
        stretch. */
    method Poll(now: int, submitted: bool)
      requires Valid()
      modifies this
      ensures Valid()
      ensures var fire := old(isPageActive) && !submitted && !old(isInactive) && now - old(lastUserActivity) > IdleThreshold;
        && isInactive == (old(isInactive) || fire)
        && logged == old(logged) + (if fire then [MouseInactiveStart] else [])
      ensures isPageActive == old(isPageActive) && currentFocus == old(currentFocus)
      ensures lastUserActivity == old(lastUserActivity) && ignoreNextBlur == old(ignoreNextBlur)
    {
      if !isPageActive || submitted {
        return;
      }
      if !isInactive && now - lastUserActivity > IdleThreshold {
        IdleTraceAppend(logged, MouseInactiveStart);
        logged := logged + [MouseInactiveStart];
        isInactive := true;
      }
    }
  }

  /** The blur caused by an alert is skipped exactly once: the next blur is
      handled again. */
  method AlertSkipsOneBlur(t: Tracker)
    requires t.Valid() && t.isPageActive
    modifies t
  {
    var before := t.logged;
    t.Alert();
    t.HandleWindowBlur();
    assert t.logged == before && t.isPageActive;
    t.HandleWindowBlur();
    assert t.logged == before + [PageLeave] && !t.isPageActive;
  }

  /** The idle threshold is strict: exactly 5000 ms without activity is not
      yet idle. */
  method ThresholdIsStrict(t: Tracker)
    requires t.Valid() && t.isPageActive && !t.isInactive
    modifies t
  {
    var start := t.lastUserActivity;
    t.Poll(start + IdleThreshold, false);
    assert !t.isInactive;
    t.Poll(start + IdleThreshold + 1, false);
    assert t.isInactive;
  }
}
