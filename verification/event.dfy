/** The three kinds of input event the backends deliver to an application. */
module Events {
  import opened Points
  import opened Sizes
  import opened Keys

  /** A 16-bit unsigned key code. */
  type U16 = n: int | 0 <= n < 0x1_0000

  /** A 16-bit signed wheel delta. */
  type I16 = n: int | -0x8000 <= n < 0x8000

  /** The mouse event kinds: the four the core declares plus the two wheel
      directions the Windows backend reports. */
  datatype MouseEventType = MouseMove | Click | DoubleClick | Wheel | HorizontalWheel | VerticalWheel

  datatype KeyboardEventType = KeyDown | KeyUp

  datatype WindowEventType = WindowMove | WindowResize | WindowFocus | WindowLostFocus | WindowClose

  datatype MouseEvent = MouseEvent(
    eventType: MouseEventType,
    leftButton: bool,
    middleButton: bool,
    rightButton: bool,
    extraButton1: bool,
    extraButton2: bool,
    extraButton3: bool,
    extraButton4: bool,
    position: Point,
    wheelDelta: I16)

  datatype KeyboardEvent = KeyboardEvent(
    eventType: KeyboardEventType,
    key: Key,
    keyCode: U16,
    character: char,
    leftControl: bool,
    leftShift: bool,
    leftMenu: bool,
    rightControl: bool,
    rightShift: bool,
    rightMenu: bool)

  datatype WindowEvent = WindowEvent(eventType: WindowEventType, position: Point, size: Size)

  datatype Event = Mouse(mouse: MouseEvent) | Keyboard(keyboard: KeyboardEvent) | Window(window: WindowEvent)
}
