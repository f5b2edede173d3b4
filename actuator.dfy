/** The actuator (content.js, clickLastReadButton): on a fresh snapshot of the page's
    read-aloud buttons it decides which button, if any, is to be clicked. */
module Actuator {

  datatype Option<T> = None | Some(value: T)

  /** Identity of a DOM element, so that a deferred click can name the element it
      was scheduled for. */
  type ElementId = nat

  /** One read-aloud button as found on the page: its identity and the value of its
      `data-state` attribute. */
  datatype ReadButton = ReadButton(id: ElementId, state: string)

  /** The `data-state` value of a button whose playback has not started. */
  const ClosedState: string := "closed"

  /** The button the actuator schedules a click on: only the last (most recent) button
      of the snapshot, only while auto-read is on, and only when that button's playback
      has not started. An earlier button is never chosen, even when the last one is
      not closed and an earlier one is. */
  function Target(buttons: seq<ReadButton>, active: bool): (t: Option<ElementId>)
    ensures t.Some? <==> |buttons| > 0 && active && buttons[|buttons| - 1].state == ClosedState
    ensures t.Some? ==> t.value == buttons[|buttons| - 1].id
    ensures !active || buttons == [] ==> t == None
  {
    if |buttons| > 0 && active then
      var last := buttons[|buttons| - 1];
      if last.state == ClosedState then Some(last.id) else None
    else
      None
  }

  /** Corollary of `Target`'s contract, for a page that just grew: appending a button
      can only make the actuator aim at that new button; whatever was there before is
      out of reach. */
  lemma TargetIsNewestButton(buttons: seq<ReadButton>, newest: ReadButton, active: bool)
    ensures Target(buttons + [newest], active) in {None, Some(newest.id)}
  {
    assert (buttons + [newest])[|buttons + [newest]| - 1] == newest;
  }
}
