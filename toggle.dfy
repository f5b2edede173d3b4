/** The ON/OFF toggle's appearance (content.js, addToggleButton and its click handler):
    its text and background colour, both derived from the auto-read flag. */
module Toggle {

  /** What the user sees of the toggle. */
  datatype View = View(text: string, colour: string)

  const OnLabel: string := "\U{1F50A} Auto Read ON"
  const OffLabel: string := "\U{1F507} Auto Read OFF"
  const OnColour: string := "#4caf50"   // green
  const OffColour: string := "#f44336"  // red

  /** The view a new toggle is created with. */
  const CreatedView: View := View(OnLabel, OnColour)

  /** The view a click leaves behind for the new flag. The label reads "ON" with the
      green colour exactly when the flag is on, "OFF" with red exactly when it is off,
      so the view always tells the flag. */
  function ViewFor(active: bool): (v: View)
    ensures v.text == OnLabel <==> active
    ensures v.text == OffLabel <==> !active
    ensures v.colour == OnColour <==> active
    ensures v.colour == OffColour <==> !active
  {
    if active then View(OnLabel, OnColour) else View(OffLabel, OffColour)
  }
}
