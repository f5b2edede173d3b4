# Auto Voice Reader — a Dafny model of the content script

The content script watches a chat page for newly rendered assistant messages and presses
the newest message's "read aloud" button, so that the answer is spoken. It polls the page
every half second, compares the number of read-aloud buttons with the number it saw last,
and on growth by exactly one it schedules an actuation: a fresh look at the buttons and,
when auto-read is on and the newest button's `data-state` is `closed`, a short-delayed
click on that button if it is still displayed. An ON/OFF toggle injected into the page
flips auto-read. Setup happens once, after a settle delay; page unload clears the timer.

The page is abstracted to what the script reads from it: the number of read-aloud
buttons, a snapshot of them (identity and `data-state`), and whether an element still has
an offset parent. Timers become explicit methods that the browser's event loop calls; the
callbacks still owed are counted in fields of the script object.

- `detector.dfy` (module `Detector`): the detector's three `if`s as a function, with their
  net effect as its contract, and a run of the detector over any sequence of counts.
- `actuator.dfy` (module `Actuator`): which button the actuator aims at.
- `toggle.dfy` (module `Toggle`): the toggle's text and colour for each flag value.
- `content_script.dfy` (module `ContentScript`): class `AutoReadScript` holding the
  script's variables and what the browser holds for it (registered intervals, toggle
  elements, pending callbacks, clicks made), with one method per function of the script
  and an invariant `Valid()` every method keeps: one registered interval at most, the
  one the handle names; one toggle at most; no toggle means the flag is still ON; the
  toggle's view always matches the flag. Four scenario methods walk through the cases
  2→3, 2→5 and 3→1 buttons, a toggle click while a message arrives, `initialize` called
  twice, and teardown.

Three behaviours of the code are easy to misread; the model keeps them as written:
- The flag is read when the actuator chooses its target (content.js:40), not when the
  delayed click fires (content.js:48-54); a toggle click in the 100 ms between them does
  not stop the click, so the script can click while auto-read is off
  (`ClickAfterToggleOffScenario`).
- `isInitialized` is set by the settle-delay callback, not by `initialize` itself, so a
  second `initialize` before that callback runs is not refused and queues a second setup.
  The toggle stays single because creation checks for the id, and the interval stays
  single because `startPolling` clears before it sets (`LifecycleScenario`).
- Teardown is final only once setup has run: a `cleanup` while a setup is still queued
  does not cancel that setup, which then starts polling again.

## Model

| member | source | states |
|---|---|---|
| Detector.Detect | content.js:75-94 | whatever the previous baseline, the new baseline is the current count, and an actuation is scheduled if and only if the count is exactly the baseline plus one |
| Detector.RunTicks | content.js:68-100 | running the detector on consecutive ticks yields one scheduling decision per observed count |
| Detector.RunTicksEndsOnLastCount | content.js:75-88 | after any non-empty run of ticks the baseline equals the last count observed |
| Detector.RunTicksSchedulesOnGrowthByOne | content.js:75-94 | in any run, a tick schedules an actuation if and only if its count is one more than the previous count; shrinks, jumps and unchanged counts schedule nothing |
| Detector.SteadyGrowthSchedulesEveryTick | content.js:85-94 | counts that grow by one on every tick schedule an actuation on every tick |
| Actuator.Target | content.js:38-59 | a target exists if and only if the snapshot is non-empty, auto-read is on and the last button is `closed`; the target is always the last button; no target when auto-read is off or the page has no buttons |
| Actuator.TargetIsNewestButton | content.js:40-45 | after a button is appended, the actuator aims at that button or at nothing, never at an older one |
| Toggle.ViewFor | content.js:139-141 | the text reads ON and the colour is green exactly when the flag is on, OFF and red exactly when it is off |
| ContentScript.AutoReadScript.constructor | content.js:13-16 | auto-read on, baseline 0, not initialised, no interval, no toggle, nothing pending |
| ContentScript.AutoReadScript.CheckForNewResponses | content.js:68-100 | the three `if`s agree with `Detect`: the baseline becomes the current count and one actuation is queued exactly when the count grew by one; the invariant is kept |
| ContentScript.AutoReadScript.ClickLastReadButton | content.js:34-66 | consumes one queued actuation; queues a delayed click on `Target(snapshot, flag)` when there is one and nothing otherwise |
| ContentScript.AutoReadScript.FireDelayedClick | content.js:48-54 | the oldest queued click is performed exactly when its button is still displayed; the flag is not consulted |
| ContentScript.AutoReadScript.AddToggleButton | content.js:102-113 | creates the toggle, reading ON in green, only when none exists; afterwards exactly one exists and an existing one is unchanged |
| ContentScript.AutoReadScript.OnToggleClick | content.js:134-143 | the flag is inverted and the toggle shows the view of the new flag |
| ContentScript.AutoReadScript.StartPolling | content.js:165-174 | afterwards exactly one interval is registered and the handle names it, whatever was registered before |
| ContentScript.AutoReadScript.Cleanup | content.js:176-183 | afterwards no interval is registered and the handle is cleared; a second call changes nothing |
| ContentScript.AutoReadScript.Initialize | content.js:185-216 | a no-op once setup has run; otherwise clears the interval and queues one settle-delay setup, even when one is already queued |
| ContentScript.AutoReadScript.FinishInitialization | content.js:199-209 | consumes one queued setup; afterwards one toggle, one interval, the baseline is the current count and the script is initialised; an existing toggle and the flag are untouched |

## Left out

- DOM access (`querySelectorAll`, `getAttribute`, `createElement`, `appendChild`,
  `offsetParent`, `click`): replaced by parameters (a count, a snapshot, a displayed flag)
  and by the `clicked` log.
- Timer delays and values (polling 500 ms, click delay 100 ms, settle delay 500 ms): a
  callback is a method call; the order in which queued callbacks of different kinds run
  is left to the caller, and queued clicks fire oldest first.
- The `try`/`catch` paths: a DOM call that throws makes the real script skip the rest of
  that function; the model has no failing DOM calls.
- CSS styling and the hover scale effect of the toggle, and logging (`logMessage`,
  `console.*`).
- The global `error` listener, the `DOMContentLoaded` / `readyState` wiring that calls
  `initialize`, and the `beforeunload` hook beyond `Cleanup` itself.
- Toggle elements the script did not create: the model starts with no element carrying
  the toggle's id and lets only `AddToggleButton` add one. A toggle left in the page by an
  earlier injection of the script would make creation a no-op and leave this instance's
  flag unflippable, and a toggle the page removed between two queued setups would be
  recreated reading ON in green whatever the flag; `Valid()`'s clauses "no toggle means
  the flag is ON" and "the view matches the flag" hold only without such outside changes.
- A tick of an interval that was cleared: the browser never runs one, so the tick method
  is only called while an interval is registered.
