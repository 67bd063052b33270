/** The anti-cheating message screen (MessageDisplay.jsx): the message is
    shown with a disabled button and a five-second countdown; once the
    delay has passed the button is enabled, and pressing it reports the
    message as read to the game, through a callback called with no
    argument. The two timers are driven by the caller: `IntervalTick` is
    one firing of the one-second interval, `ReadDelayElapsed` the firing of
    the five-second timeout. */
module MessageDisplay {

  import opened Wrappers
  import opened Text
  import MG = MainGame

  const CountdownStart: int := 5
  const MinReadTime: int := 5000

  /** `message?.id` is truthy (an id of 0 is not). */
  predicate HasId(m: Option<MG.MessageInfo>) {
    m.Some? && m.value.id != 0
  }

  /** `message?.text` is truthy; otherwise the component renders nothing. */
  predicate Rendered(m: Option<MG.MessageInfo>) {
    m.Some? && m.value.text != []
  }

  /** The countdown after `k` interval firings: `Math.max(0, prev - 1)`
      applied `k` times to the start value. */
  function CountdownAfter(k: nat): (r: int)
    ensures 0 <= r <= CountdownStart
    ensures r == if k < CountdownStart then CountdownStart - k else 0
  {
    if k == 0 then CountdownStart
    else
      var prev := CountdownAfter(k - 1);
      if prev - 1 < 0 then 0 else prev - 1
  }

  const WaitPrefix: string := "Please wait "
  const WaitSuffix: string := " seconds..."

  class Display {
    const message: Option<MG.MessageInfo>
    /** Whether the mount effect started the timers (the message has an id
        and is not ready yet). */
    const armed: bool
    var isReady: bool
    var hasRead: bool
    var remainingTime: int
    /** How often `onMessageShown()` has been called. */
    var notified: nat
    /** How often the interval has fired. */
    ghost var ticks: nat

    /** The countdown stays within its range and is 0 once ready; the
        message is read only after the delay, and the game is told at most
        once, exactly when the read message has an id. */
    ghost predicate Valid()
      reads this
    {
      0 <= remainingTime <= CountdownStart &&
      (!isReady ==> remainingTime == CountdownAfter(ticks)) &&
      (isReady ==> remainingTime == 0) &&
      (isReady ==> armed) &&
      (hasRead ==> isReady) &&
      notified == (if hasRead && HasId(message) then 1 else 0)
    }

    constructor (m: Option<MG.MessageInfo>)
      ensures Valid()
      ensures message == m && armed == HasId(m)
      ensures !isReady && !hasRead && remainingTime == CountdownStart && notified == 0 && ticks == 0
    {
      message := m;
      armed := HasId(m);
      isReady := false;
      hasRead := false;
      remainingTime := CountdownStart;
      notified := 0;
      ticks := 0;
    }

    /** The button label: `Please wait ${remainingTime} seconds...` until
        the message is ready. While waiting, the number between the fixed
        words reads back as the seconds left, which under the invariant is
        the countdown after the interval firings so far. */
    function ButtonLabel(): (r: string)
      reads this
      ensures isReady <==> r == "I understand, continue"
      ensures !isReady && remainingTime >= 0 ==>
        |r| > |WaitPrefix| + |WaitSuffix| &&
        r[..|WaitPrefix|] == WaitPrefix && r[|r| - |WaitSuffix|..] == WaitSuffix &&
        (forall i :: |WaitPrefix| <= i < |r| - |WaitSuffix| ==> IsDigit(r[i])) &&
        ParseDigits(r[|WaitPrefix|..|r| - |WaitSuffix|]) == remainingTime
      ensures Valid() && !isReady ==> ParseDigits(r[|WaitPrefix|..|r| - |WaitSuffix|]) == CountdownAfter(ticks)
    {
      if isReady then "I understand, continue"
      else
        var digits := IntToString(remainingTime);
        var r := WaitPrefix + digits + WaitSuffix;
        if remainingTime >= 0 then
          ParseNatToString(remainingTime);
          assert r[|WaitPrefix|..|r| - |WaitSuffix|] == digits;
          r
        else r
    }

    /** One firing of the interval: the countdown goes down by one, not below
        zero. Without an id no interval was started. */
    method IntervalTick()
      requires Valid()
      modifies this
      ensures Valid()
      ensures remainingTime == (if armed then (if old(remainingTime) <= 1 then 0 else old(remainingTime) - 1) else old(remainingTime))
      ensures isReady == old(isReady) && hasRead == old(hasRead) && notified == old(notified)
    {
      if armed {
        remainingTime := if remainingTime - 1 < 0 then 0 else remainingTime - 1;
        ticks := ticks + 1;
      }
    }

    /** The five-second timeout: the button becomes enabled. */
    method ReadDelayElapsed()
      requires Valid()
      modifies this
      ensures Valid()
      ensures armed ==> isReady && remainingTime == 0
      ensures !armed ==> isReady == old(isReady) && remainingTime == old(remainingTime)
      ensures hasRead == old(hasRead) && notified == old(notified)
    {
      if armed {
        isReady := true;
        remainingTime := 0;
      }
    }

    /** A click on the button. It exists only when the message is rendered
        and does nothing while it is disabled; the first enabled click marks
        the message read, and the effect that follows calls the callback
        when the message has an id. `callback` says whether it was called. */
    method Click() returns (callback: bool)
      requires Valid()
      modifies this
      ensures Valid()
      ensures callback <==> Rendered(message) && old(isReady) && !old(hasRead) && HasId(message)
      ensures hasRead == (old(hasRead) || (Rendered(message) && old(isReady)))
      ensures notified == old(notified) + (if callback then 1 else 0)
      ensures isReady == old(isReady) && remainingTime == old(remainingTime)
    {
      callback := false;
      if Rendered(message) && isReady && !hasRead {
        hasRead := true;
        if HasId(message) {
          notified := notified + 1;
          callback := true;
        }
      }
    }
  }

  /** A message with an id and a text: the button stays disabled through the
      countdown, is enabled by the timeout, and the click reaches the game,
      which, called with no argument, stays in the message phase. */
  method MessageFlow(m: MG.MessageInfo, g: MG.AnagramGame)
    requires m.id != 0 && m.text != []
    requires g.gameState.phase == MG.Message
    modifies g
  {
    var d := new Display(Some(m));
    var early := d.Click();
    assert !early && !d.hasRead;
    d.IntervalTick();
    d.IntervalTick();
    assert d.remainingTime == 3 && !d.isReady;
    d.ReadDelayElapsed();
    var shown := d.Click();
    assert shown && d.notified == 1;
    if shown {
      g.MessageShown(None);
    }
    assert g.gameState.phase == MG.Message;
    var again := d.Click();
    assert !again && d.notified == 1;
  }
}
