/** The last reported mouse buttons and position. */
module MouseStates {
  import opened Points
  import opened Events

  datatype MouseState = MouseState(
    leftButton: bool,
    middleButton: bool,
    rightButton: bool,
    extraButton1: bool,
    extraButton2: bool,
    extraButton3: bool,
    extraButton4: bool,
    position: Point)

  /** No button held, pointer at the origin. */
  function New(): (r: MouseState)
    ensures !r.leftButton && !r.middleButton && !r.rightButton
    ensures !r.extraButton1 && !r.extraButton2 && !r.extraButton3 && !r.extraButton4
    ensures IsEmpty(r.position)
  {
    MouseState(false, false, false, false, false, false, false, Empty())
  }

  /** Copies the seven button flags and the position out of the event. */
  function UpdateFromEvent(s: MouseState, mouse: MouseEvent): (r: MouseState)
    ensures r.leftButton == mouse.leftButton && r.middleButton == mouse.middleButton
    ensures r.rightButton == mouse.rightButton
    ensures r.extraButton1 == mouse.extraButton1 && r.extraButton2 == mouse.extraButton2
    ensures r.extraButton3 == mouse.extraButton3 && r.extraButton4 == mouse.extraButton4
    ensures r.position == mouse.position
  {
    s.(leftButton := mouse.leftButton,
       middleButton := mouse.middleButton,
       rightButton := mouse.rightButton,
       extraButton1 := mouse.extraButton1,
       extraButton2 := mouse.extraButton2,
       extraButton3 := mouse.extraButton3,
       extraButton4 := mouse.extraButton4,
       position := mouse.position)
  }

  /** The previous state is entirely overwritten: the update is idempotent and
      of two updates only the last one shows. */
  lemma UpdateForgetsPriorState(s: MouseState, t: MouseState, first: MouseEvent, mouse: MouseEvent)
    ensures UpdateFromEvent(s, mouse) == UpdateFromEvent(t, mouse)
    ensures UpdateFromEvent(UpdateFromEvent(s, mouse), mouse) == UpdateFromEvent(s, mouse)
    ensures UpdateFromEvent(UpdateFromEvent(s, first), mouse) == UpdateFromEvent(s, mouse)
  {
  }

  /** The event's kind and wheel delta do not reach the state. */
  lemma UpdateIgnoresKindAndWheel(s: MouseState, mouse: MouseEvent, kind: MouseEventType, delta: I16)
    ensures UpdateFromEvent(s, mouse.(eventType := kind, wheelDelta := delta)) == UpdateFromEvent(s, mouse)
  {
  }
}
