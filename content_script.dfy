/** The content script's module-level state and the functions that change it
    (content.js:13-16 and 34-216). Deferred work is explicit: every `setTimeout` or
    `setInterval` callback is a method the browser's event loop calls later, and the
    callbacks it still owes are counted in fields, so that "scheduled" can be stated.
    DOM lookups become parameters: the number of read-aloud buttons, a snapshot of
    them, or whether an element is still displayed. */
module ContentScript {

  import opened Detector
  import opened Actuator
  import opened Toggle

  class AutoReadScript {
    // the script's own variables (content.js:13-16)
    var autoReadActive: bool
    var lastMessageCount: nat
    var isInitialized: bool
    /** `pollingInterval != null` */
    var pollingHandle: bool

    // what the browser holds on the script's behalf
    /** repeating timers registered with the browser and not yet cleared */
    var activeIntervals: nat
    /** elements in the page carrying the toggle's id */
    var toggleCount: nat
    /** the toggle's current text and colour, meaningful while it exists */
    var toggleView: View
    /** settle-delay callbacks of `initialize` not yet run */
    var pendingSetups: nat
    /** click-delay callbacks of the detector (calls of the actuator) not yet run */
    var pendingActuations: nat
    /** visibility-recheck callbacks of the actuator not yet run, oldest first,
        each holding the button it was scheduled for */
    var pendingClicks: seq<ElementId>
    /** read-aloud buttons clicked so far, in order */
    var clicked: seq<ElementId>

    /** The script's invariant. At most one polling interval is registered, and it is the
        one the handle names. The toggle is a singleton. Only the toggle flips the flag,
        so while there is no toggle the flag still has its initial value ON, and while
        there is one its view matches the flag. Setup creates the toggle before it marks
        the script initialised. */
    ghost predicate Valid()
      reads this
    {
      && activeIntervals == (if pollingHandle then 1 else 0)
      && toggleCount <= 1
      && (toggleCount == 0 ==> autoReadActive)
      && (toggleCount == 1 ==> toggleView == ViewFor(autoReadActive))
      && (isInitialized ==> toggleCount == 1)
    }

    /** The state when the script is injected (content.js:13-16). */
    constructor ()
      ensures Valid()
      ensures autoReadActive && lastMessageCount == 0 && !isInitialized && !pollingHandle
      ensures activeIntervals == 0 && toggleCount == 0
      ensures pendingSetups == 0 && pendingActuations == 0 && pendingClicks == [] && clicked == []
    {
      autoReadActive := true;
      lastMessageCount := 0;
      isInitialized := false;
      pollingHandle := false;
      activeIntervals := 0;
      toggleCount := 0;
      toggleView := CreatedView;
      pendingSetups := 0;
      pendingActuations := 0;
      pendingClicks := [];
      clicked := [];
    }

    /** One polling tick (content.js:68-100), run by the registered interval, so only
        while one is registered. `currentCount` is the number of read-aloud buttons on
        the page. The three `if`s leave the baseline at the current count and schedule
        an actuation exactly when the count grew by one. */
    method CheckForNewResponses(currentCount: nat) returns (scheduled: bool)
      requires Valid() && pollingHandle
      modifies this`lastMessageCount, this`pendingActuations
      ensures Valid()
      ensures Detection(lastMessageCount, scheduled) == Detect(old(lastMessageCount), currentCount)
      ensures lastMessageCount == currentCount
      ensures scheduled <==> currentCount == old(lastMessageCount) + 1
      ensures pendingActuations == old(pendingActuations) + (if scheduled then 1 else 0)
    {
      scheduled := false;
      if currentCount < lastMessageCount {
        lastMessageCount := currentCount;
      }
      if currentCount > lastMessageCount + 1 {
        lastMessageCount := currentCount;
      }
      if currentCount > lastMessageCount {
        lastMessageCount := currentCount;
        pendingActuations := pendingActuations + 1;
        scheduled := true;
      }
    }

    /** The actuator (content.js:34-66), run by a click-delay callback of the detector.
        `buttons` is the fresh snapshot it takes. It schedules a visibility-recheck of the
        last button when auto-read is on and that button is closed, and nothing else. */
    method ClickLastReadButton(buttons: seq<ReadButton>) returns (target: Option<ElementId>)
      requires Valid() && pendingActuations > 0
      modifies this`pendingActuations, this`pendingClicks
      ensures Valid()
      ensures target == Target(buttons, autoReadActive)
      ensures pendingActuations == old(pendingActuations) - 1
      ensures pendingClicks == old(pendingClicks) + (if target.Some? then [target.value] else [])
    {
      pendingActuations := pendingActuations - 1;
      target := None;
      if |buttons| > 0 && autoReadActive {
        var lastButton := buttons[|buttons| - 1];
        if lastButton.state == ClosedState {
          target := Some(lastButton.id);
          pendingClicks := pendingClicks + [lastButton.id];
        }
      }
    }

    /** The actuator's delayed click (content.js:48-54), for the oldest pending recheck.
        `stillDisplayed` is whether the button has an offset parent at that moment. The
        button is clicked exactly when it is; the auto-read flag is not consulted again. */
    method FireDelayedClick(stillDisplayed: bool) returns (done: bool)
      requires Valid() && pendingClicks != []
      modifies this`pendingClicks, this`clicked
      ensures Valid()
      ensures done == stillDisplayed
      ensures pendingClicks == old(pendingClicks)[1..]
      ensures clicked == old(clicked) + (if done then [old(pendingClicks)[0]] else [])
    {
      var lastButton := pendingClicks[0];
      pendingClicks := pendingClicks[1..];
      done := false;
      if stillDisplayed {
        clicked := clicked + [lastButton];
        done := true;
      }
    }

    /** Creates the toggle (content.js:102-163) unless an element with its id exists;
        a new toggle reads ON in green. */
    method AddToggleButton()
      requires Valid()
      modifies this`toggleCount, this`toggleView
      ensures Valid()
      ensures toggleCount == 1
      ensures old(toggleCount) == 1 ==> toggleView == old(toggleView)
      ensures old(toggleCount) == 0 ==> toggleView == CreatedView
    {
      if toggleCount > 0 {
        return;
      }
      toggleCount := toggleCount + 1;  // appendChild
      toggleView := CreatedView;
    }

    /** The toggle's click handler (content.js:134-143); the user can only click a toggle
        that exists. It inverts the flag and shows the view of the new flag. */
    method OnToggleClick()
      requires Valid() && toggleCount == 1
      modifies this`autoReadActive, this`toggleView
      ensures Valid()
      ensures autoReadActive == !old(autoReadActive)
      ensures toggleView == ViewFor(autoReadActive)
    {
      autoReadActive := !autoReadActive;
      toggleView := View(if autoReadActive then OnLabel else OffLabel,
                         if autoReadActive then OnColour else OffColour);
    }

    /** Registers the polling interval (content.js:165-174), clearing the previous one
        first, so that exactly one interval is registered afterwards. */
    method StartPolling()
      requires Valid()
      modifies this`pollingHandle, this`activeIntervals
      ensures Valid()
      ensures pollingHandle && activeIntervals == 1
    {
      if pollingHandle {
        activeIntervals := activeIntervals - 1;  // clearInterval
      }
      activeIntervals := activeIntervals + 1;    // setInterval
      pollingHandle := true;
    }

    /** Clears the polling interval, if any (content.js:176-183); doing it twice is the
        same as doing it once. */
    method Cleanup()
      requires Valid()
      modifies this`pollingHandle, this`activeIntervals
      ensures Valid()
      ensures !pollingHandle && activeIntervals == 0
    {
      if pollingHandle {
        activeIntervals := activeIntervals - 1;  // clearInterval
        pollingHandle := false;
      }
    }

    /** Starts initialisation (content.js:185-216): a no-op once setup has run; otherwise
        it clears any interval and queues the settle-delay callback. The guard is only set
        by that callback, so a second call before it runs queues a second setup. */
    method Initialize()
      requires Valid()
      modifies this`pollingHandle, this`activeIntervals, this`pendingSetups
      ensures Valid()
      ensures old(isInitialized) ==> pollingHandle == old(pollingHandle) && pendingSetups == old(pendingSetups)
      ensures !old(isInitialized) ==> !pollingHandle && pendingSetups == old(pendingSetups) + 1
    {
      if isInitialized {
        return;
      }
      Cleanup();
      pendingSetups := pendingSetups + 1;
    }

    /** The settle-delay callback of `initialize` (content.js:199-209): creates the toggle if
        there is none, (re)starts polling, takes the current number of read-aloud buttons as
        the baseline and marks the script initialised. */
    method FinishInitialization(currentCount: nat)
      requires Valid() && pendingSetups > 0
      modifies this
      ensures Valid()
      ensures pendingSetups == old(pendingSetups) - 1
      ensures toggleCount == 1 && pollingHandle && activeIntervals == 1
      ensures lastMessageCount == currentCount && isInitialized
      ensures autoReadActive == old(autoReadActive)
      ensures old(toggleCount) == 1 ==> toggleView == old(toggleView)
      ensures pendingActuations == old(pendingActuations)
      ensures pendingClicks == old(pendingClicks) && clicked == old(clicked)
    {
      pendingSetups := pendingSetups - 1;
      AddToggleButton();
      StartPolling();
      lastMessageCount := currentCount;
      isInitialized := true;
    }
  }

  /** Baseline 2, then 3 buttons: one actuation, aimed at the third (last) button while it
      is closed. Baseline 2, then 5: resynchronised, nothing scheduled. Baseline 3, then 1:
      resynchronised, nothing scheduled. */
  method DetectionScenarios(b1: ReadButton, b2: ReadButton, b3: ReadButton)
    requires b3.state == ClosedState
  {
    var s := new AutoReadScript();
    s.Initialize();
    s.FinishInitialization(2);
    var scheduled := s.CheckForNewResponses(3);
    assert scheduled && s.lastMessageCount == 3 && s.pendingActuations == 1;
    var target := s.ClickLastReadButton([b1, b2, b3]);
    assert target == Some(b3.id) && s.pendingClicks == [b3.id];
    var done := s.FireDelayedClick(true);
    assert s.clicked == [b3.id];

    var jump := new AutoReadScript();
    jump.Initialize();
    jump.FinishInitialization(2);
    scheduled := jump.CheckForNewResponses(5);
    assert !scheduled && jump.lastMessageCount == 5 && jump.pendingActuations == 0;

    var cleared := new AutoReadScript();
    cleared.Initialize();
    cleared.FinishInitialization(3);
    scheduled := cleared.CheckForNewResponses(1);
    assert !scheduled && cleared.lastMessageCount == 1 && cleared.pendingActuations == 0;
  }

  /** Two toggle clicks restore the flag and the view. With auto-read off, a new message
      still moves the baseline, but the actuator aims at nothing. */
  method ToggleScenario(buttons: seq<ReadButton>)
  {
    var s := new AutoReadScript();
    s.Initialize();
    s.FinishInitialization(|buttons|);
    assert s.toggleView == View(OnLabel, OnColour);
    s.OnToggleClick();
    assert !s.autoReadActive && s.toggleView == View(OffLabel, OffColour);
    var scheduled := s.CheckForNewResponses(|buttons| + 1);
    assert scheduled && s.lastMessageCount == |buttons| + 1;
    var target := s.ClickLastReadButton(buttons + [ReadButton(0, ClosedState)]);
    assert target == None && s.pendingClicks == [];
    s.OnToggleClick();
    assert s.autoReadActive && s.toggleView == View(OnLabel, OnColour);
  }

  /** A second `initialize` before the settle delay is not stopped by the guard and queues
      a second setup; after both setups there is still one toggle and one interval. Once
      setup has run, `initialize` does nothing, also after teardown, and teardown twice
      is teardown once. */
  method LifecycleScenario(first: nat, second: nat)
  {
    var s := new AutoReadScript();
    s.Initialize();
    s.Initialize();
    assert s.pendingSetups == 2 && !s.isInitialized;
    s.FinishInitialization(first);
    s.FinishInitialization(second);
    assert s.toggleCount == 1 && s.activeIntervals == 1 && s.lastMessageCount == second;
    s.Cleanup();
    s.Cleanup();
    assert !s.pollingHandle && s.activeIntervals == 0;
    s.Initialize();
    assert !s.pollingHandle && s.pendingSetups == 0;
  }

  /** The flag is read when the target is chosen, not when the delayed click fires: a
      toggle click in between does not stop the click. */
  method ClickAfterToggleOffScenario(b: ReadButton)
    requires b.state == ClosedState
  {
    var s := new AutoReadScript();
    s.Initialize();
    s.FinishInitialization(0);
    var scheduled := s.CheckForNewResponses(1);
    var target := s.ClickLastReadButton([b]);
    s.OnToggleClick();
    var done := s.FireDelayedClick(true);
    assert !s.autoReadActive && s.clicked == [b.id];
  }
}
