/** The shared activity tracker (EventTrack.jsx): an idle flag driven by
    activity and by polling, an active/inactive page state driven by
    visibility, focus and blur, a 300 ms debounce, and a tab-change counter
    that restarts after 10 s. The clock is the `now` argument (milliseconds)
    and the callbacks the component invokes are recorded, in order, in
    `emitted`. */
module EventTrack {

  import opened Wrappers

  const EventThreshold: int := 300
  const TabChangeResetTime: int := 10000

  datatype PageState = Active | Inactive

  /** The argument of `onPageLeave` on a visibility change. */
  datatype LeaveDetail = LeaveDetail(tabChangeCount: nat, timestamp: int)

  /** One invocation of a callback: `onInactivityStart`, `onActiveReturn`,
      `onPageLeave` (with its argument, or none after a blur) and
      `onPageReturn`. */
  datatype TrackEvent = InactivityStart | ActiveReturn | PageLeave(detail: Option<LeaveDetail>) | PageReturn

  predicate IsIdleEvent(e: TrackEvent) {
    e.InactivityStart? || e.ActiveReturn?
  }

  /** The events that open a stretch: idle start and page leave. */
  predicate Opens(e: TrackEvent) {
    e.InactivityStart? || e.PageLeave?
  }

  /** The idle events of a log, in order. */
  function IdleTrace(log: seq<TrackEvent>): (t: seq<TrackEvent>)
    ensures forall i :: 0 <= i < |t| ==> IsIdleEvent(t[i])
    decreases |log|
  {
    if log == [] then []
    else IdleTrace(log[..|log| - 1]) + (if IsIdleEvent(log[|log| - 1]) then [log[|log| - 1]] else [])
  }

  /** The page events of a log, in order. */
  function PageTrace(log: seq<TrackEvent>): (t: seq<TrackEvent>)
    ensures forall i :: 0 <= i < |t| ==> !IsIdleEvent(t[i])
    decreases |log|
  {
    if log == [] then []
    else PageTrace(log[..|log| - 1]) + (if !IsIdleEvent(log[|log| - 1]) then [log[|log| - 1]] else [])
  }

  /** Opening and closing events take turns, starting with an opening one. */
  predicate Alternates(t: seq<TrackEvent>) {
    forall i :: 0 <= i < |t| ==> (Opens(t[i]) <==> i % 2 == 0)
  }

  /** In an alternating trace no stretch is opened twice in a row and none
      is closed twice in a row. */
  lemma AlternatingIsEdgeTriggered(t: seq<TrackEvent>)
    requires Alternates(t)
    ensures forall i :: 0 <= i < |t| - 1 ==> Opens(t[i]) != Opens(t[i + 1])
    ensures t != [] ==> Opens(t[0])
  {
    forall i | 0 <= i < |t| - 1 ensures Opens(t[i]) != Opens(t[i + 1]) {
      assert (Opens(t[i]) <==> i % 2 == 0) && (Opens(t[i + 1]) <==> (i + 1) % 2 == 0);
    }
  }

  /** Appending one event extends exactly one of the two traces. */
  lemma TraceAppend(log: seq<TrackEvent>, e: TrackEvent)
    ensures IdleTrace(log + [e]) == IdleTrace(log) + (if IsIdleEvent(e) then [e] else [])
    ensures PageTrace(log + [e]) == PageTrace(log) + (if IsIdleEvent(e) then [] else [e])
  {
    assert (log + [e])[..|log + [e]| - 1] == log;
  }

  /** An opening event after an even trace, or a closing one after an odd
      trace, keeps the trace alternating. */
  lemma AlternatesExtend(t: seq<TrackEvent>, e: TrackEvent)
    requires Alternates(t)
    requires Opens(e) <==> |t| % 2 == 0
    ensures Alternates(t + [e])
  {
    forall i | 0 <= i < |t + [e]| ensures Opens((t + [e])[i]) <==> i % 2 == 0 {
      if i < |t| {
        assert (t + [e])[i] == t[i];
      }
    }
  }

  class Tracker {
    var lastActivity: int
    var isInactive: bool
    var pageState: PageState
    var tabChangeCount: nat
    var lastTabChangeTime: int
    var lastEventTime: int
    var isEnabled: bool
    const inactivityTimeout: int
    var emitted: seq<TrackEvent>

    /** Each callback pair is edge-triggered: idle start and active return
        take turns, so do page leave and page return, and each flag is set
        exactly when its last event was an opening one. */
    predicate Valid()
      reads this
    {
      && Alternates(IdleTrace(emitted)) && (isInactive <==> |IdleTrace(emitted)| % 2 == 1)
      && Alternates(PageTrace(emitted)) && (pageState == Inactive <==> |PageTrace(emitted)| % 2 == 1)
    }

    constructor (now: int, enabled: bool, timeout: int)
      ensures Valid()
      ensures lastActivity == now && !isInactive && pageState == Active && tabChangeCount == 0
      ensures lastTabChangeTime == now && lastEventTime == 0 && isEnabled == enabled
      ensures inactivityTimeout == timeout && emitted == []
    {
      lastActivity := now;
      isInactive := false;
      pageState := Active;
      tabChangeCount := 0;
      lastTabChangeTime := now;
      lastEventTime := 0;
      isEnabled := enabled;
      inactivityTimeout := timeout;
      emitted := [];
    }

    /** Records one callback, keeping the traces alternating. */
    method Emit(e: TrackEvent)
      requires Alternates(IdleTrace(emitted)) && Alternates(PageTrace(emitted))
      requires IsIdleEvent(e) ==> (Opens(e) <==> |IdleTrace(emitted)| % 2 == 0)
      requires !IsIdleEvent(e) ==> (Opens(e) <==> |PageTrace(emitted)| % 2 == 0)
      modifies this
      ensures emitted == old(emitted) + [e]
      ensures Alternates(IdleTrace(emitted)) && Alternates(PageTrace(emitted))
      ensures IdleTrace(emitted) == old(IdleTrace(emitted)) + (if IsIdleEvent(e) then [e] else [])
      ensures PageTrace(emitted) == old(PageTrace(emitted)) + (if IsIdleEvent(e) then [] else [e])
      ensures lastActivity == old(lastActivity) && isInactive == old(isInactive) && pageState == old(pageState)
      ensures tabChangeCount == old(tabChangeCount) && lastTabChangeTime == old(lastTabChangeTime)
      ensures lastEventTime == old(lastEventTime) && isEnabled == old(isEnabled)
    {
      TraceAppend(emitted, e);
      if IsIdleEvent(e) {
        AlternatesExtend(IdleTrace(emitted), e);
      } else {
        AlternatesExtend(PageTrace(emitted), e);
      }
      emitted := emitted + [e];
    }

    /** `shouldProcessEvent`: accepts an event more than 300 ms after the
        last accepted one, and only then moves the window. */
    method ShouldProcessEvent(now: int) returns (accepted: bool)
      modifies this
      ensures accepted == (now - old(lastEventTime) > EventThreshold)
      ensures lastEventTime == (if accepted then now else old(lastEventTime))
      ensures lastActivity == old(lastActivity) && isInactive == old(isInactive) && pageState == old(pageState)
      ensures tabChangeCount == old(tabChangeCount) && lastTabChangeTime == old(lastTabChangeTime)
      ensures isEnabled == old(isEnabled) && emitted == old(emitted)
    {
      if now - lastEventTime > EventThreshold {
        lastEventTime := now;
        return true;
      }
      return false;
    }

    /** `checkInactivity`: fires `onInactivityStart` on the edge only, when
        not already idle, at least the timeout has passed, and tracking is
        enabled. */
    method CheckInactivity(now: int)
      requires Valid()
      modifies this
      ensures Valid()
      ensures var fire := !old(isInactive) && now - old(lastActivity) >= inactivityTimeout && old(isEnabled);
        && isInactive == (old(isInactive) || fire)
        && emitted == old(emitted) + (if fire then [InactivityStart] else [])
      ensures lastActivity == old(lastActivity) && pageState == old(pageState)
      ensures tabChangeCount == old(tabChangeCount) && lastTabChangeTime == old(lastTabChangeTime)
      ensures lastEventTime == old(lastEventTime) && isEnabled == old(isEnabled)
    {
      if !isInactive && now - lastActivity >= inactivityTimeout && isEnabled {
        isInactive := true;
        Emit(InactivityStart);
      }
    }

    /** Clears the idle flag, firing `onActiveReturn` when it was set. */
    method Wake()
      requires Valid()
      modifies this
      ensures Valid()
      ensures !isInactive && emitted == old(emitted) + (if old(isInactive) then [ActiveReturn] else [])
      ensures lastActivity == old(lastActivity) && pageState == old(pageState)
      ensures tabChangeCount == old(tabChangeCount) && lastTabChangeTime == old(lastTabChangeTime)
      ensures lastEventTime == old(lastEventTime) && isEnabled == old(isEnabled)
    {
      if isInactive {
        isInactive := false;
        Emit(ActiveReturn);
      }
    }

    /** `resetInactivityTimer`: nothing when disabled; otherwise activity is
        recorded now and an idle stretch ends with one `onActiveReturn`. */
    method ResetInactivityTimer(now: int)
      requires Valid()
      modifies this
      ensures Valid()
      ensures !old(isEnabled) ==> lastActivity == old(lastActivity) && isInactive == old(isInactive) && emitted == old(emitted)
      ensures old(isEnabled) ==> (lastActivity == now && !isInactive &&
        emitted == old(emitted) + (if old(isInactive) then [ActiveReturn] else []))
      ensures pageState == old(pageState) && tabChangeCount == old(tabChangeCount)
      ensures lastTabChangeTime == old(lastTabChangeTime) && lastEventTime == old(lastEventTime) && isEnabled == old(isEnabled)
    {
      if !isEnabled {
        return;
      }
      lastActivity := now;
      Wake();
    }

    /** `handleActivity`: ignored while the page is hidden or tracking is
        disabled; otherwise the same as resetting the idle timer. */
    method HandleActivity(now: int, hidden: bool)
      requires Valid()
      modifies this
      ensures Valid()
      ensures hidden || !old(isEnabled) ==> lastActivity == old(lastActivity) && isInactive == old(isInactive) && emitted == old(emitted)
      ensures !hidden && old(isEnabled) ==> (lastActivity == now && !isInactive &&
        emitted == old(emitted) + (if old(isInactive) then [ActiveReturn] else []))
      ensures pageState == old(pageState) && tabChangeCount == old(tabChangeCount)
      ensures lastTabChangeTime == old(lastTabChangeTime) && lastEventTime == old(lastEventTime) && isEnabled == old(isEnabled)
    {
      if hidden || !isEnabled {
        return;
      }
      lastActivity := now;
      Wake();
    }

    /** `handleVisibilityState`. The debounce is consulted first, so even a
        disabled tracker consumes the window. Then the counter restarts when
        more than 10 s have passed since the last tab change; a hide while
        active counts a tab change and leaves the page, a show while inactive
        returns to it and resets the idle timer. */
    method HandleVisibility(now: int, hidden: bool)
      requires Valid()
      modifies this
      ensures Valid()
      ensures lastEventTime == (if now - old(lastEventTime) > EventThreshold then now else old(lastEventTime))
      ensures var go := now - old(lastEventTime) > EventThreshold && old(isEnabled);
        var count := if now - old(lastTabChangeTime) > TabChangeResetTime then 0 else old(tabChangeCount);
        if !go then
          tabChangeCount == old(tabChangeCount) && lastTabChangeTime == old(lastTabChangeTime) &&
          pageState == old(pageState) && emitted == old(emitted) &&
          lastActivity == old(lastActivity) && isInactive == old(isInactive)
        else if hidden && old(pageState) == Active then
          tabChangeCount == count + 1 && lastTabChangeTime == now && pageState == Inactive &&
          emitted == old(emitted) + [PageLeave(Some(LeaveDetail(count + 1, now)))] &&
          lastActivity == old(lastActivity) && isInactive == old(isInactive)
        else if !hidden && old(pageState) == Inactive then
          tabChangeCount == count && lastTabChangeTime == old(lastTabChangeTime) && pageState == Active &&
          emitted == old(emitted) + [PageReturn] + (if old(isInactive) then [ActiveReturn] else []) &&
          lastActivity == now && !isInactive
        else
          tabChangeCount == count && lastTabChangeTime == old(lastTabChangeTime) &&
          pageState == old(pageState) && emitted == old(emitted) &&
          lastActivity == old(lastActivity) && isInactive == old(isInactive)
      ensures isEnabled == old(isEnabled)
    {
      var accepted := ShouldProcessEvent(now);
      if !accepted || !isEnabled {
        return;
      }
      if now - lastTabChangeTime > TabChangeResetTime {
        tabChangeCount := 0;
      }
      if hidden && pageState == Active {
        tabChangeCount := tabChangeCount + 1;
        lastTabChangeTime := now;
        Emit(PageLeave(Some(LeaveDetail(tabChangeCount, now))));
        pageState := Inactive;
      } else if !hidden && pageState == Inactive {
        Emit(PageReturn);
        pageState := Active;
        ResetInactivityTimer(now);
      }
    }

    /** `handleFocus`: returns to the page only from the inactive state with
        the page visible; the debounce is consulted only once those hold. */
    method HandleFocus(now: int, hidden: bool)
      requires Valid()
      modifies this
      ensures Valid()
      ensures var checked := old(pageState) == Inactive && !hidden;
        var go := checked && now - old(lastEventTime) > EventThreshold && old(isEnabled);
        && lastEventTime == (if checked && now - old(lastEventTime) > EventThreshold then now else old(lastEventTime))
        && (go ==> (pageState == Active && lastActivity == now && !isInactive &&
              emitted == old(emitted) + [PageReturn] + (if old(isInactive) then [ActiveReturn] else [])))
        && (!go ==> (pageState == old(pageState) && lastActivity == old(lastActivity) &&
              isInactive == old(isInactive) && emitted == old(emitted)))
      ensures tabChangeCount == old(tabChangeCount) && lastTabChangeTime == old(lastTabChangeTime) && isEnabled == old(isEnabled)
    {
      if pageState == Inactive && !hidden {
        var accepted := ShouldProcessEvent(now);
        if accepted && isEnabled {
          Emit(PageReturn);
          pageState := Active;
          ResetInactivityTimer(now);
        }
      }
    }

    /** `handleBlur`: leaves the page from the active state, with no tab
        count; the debounce is consulted only from the active state. */
    method HandleBlur(now: int)
      requires Valid()
      modifies this
      ensures Valid()
      ensures var checked := old(pageState) == Active;
        var go := checked && now - old(lastEventTime) > EventThreshold && old(isEnabled);
        && lastEventTime == (if checked && now - old(lastEventTime) > EventThreshold then now else old(lastEventTime))
        && (go ==> pageState == Inactive && emitted == old(emitted) + [PageLeave(None)])
        && (!go ==> pageState == old(pageState) && emitted == old(emitted))
      ensures lastActivity == old(lastActivity) && isInactive == old(isInactive)
      ensures tabChangeCount == old(tabChangeCount) && lastTabChangeTime == old(lastTabChangeTime) && isEnabled == old(isEnabled)
    {
      if pageState == Active {
        var accepted := ShouldProcessEvent(now);
        if accepted && isEnabled {
          Emit(PageLeave(None));
          pageState := Inactive;
        }
      }
    }

    /** The `enabled` prop is copied into the ref. */
    method SetEnabled(enabled: bool)
      modifies this
      ensures isEnabled == enabled
      ensures lastActivity == old(lastActivity) && isInactive == old(isInactive) && pageState == old(pageState)
      ensures tabChangeCount == old(tabChangeCount) && lastTabChangeTime == old(lastTabChangeTime)
      ensures lastEventTime == old(lastEventTime) && emitted == old(emitted)
    {
      isEnabled := enabled;
    }
  }

  /** Repeated polls during one idle stretch report it once. */
  method PollsFireOnce(t: Tracker, now: int)
    requires t.Valid() && t.isEnabled && !t.isInactive && now - t.lastActivity >= t.inactivityTimeout
    modifies t
  {
    var before := t.emitted;
    t.CheckInactivity(now);
    t.CheckInactivity(now + 1000);
    t.CheckInactivity(now + 2000);
    assert t.emitted == before + [InactivityStart];
  }
}
