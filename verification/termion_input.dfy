/** The pure translations of the termion backend: termion's key and mouse
    events into the toolkit's events. */
module TermionInput {
  import opened Wrappers
  import opened Points
  import Keys
  import opened Events

  /** termion's key event. */
  datatype TermionKey =
    | Backspace | Left | Right | Up | Down | Home | End | PageUp | PageDown
    | BackTab | Delete | Insert
    | F(n: int)
    | Char(c: char)
    | Alt(c: char)
    | Ctrl(c: char)
    | Null
    | Esc

  datatype MouseButton = MouseLeft | MouseRight | MouseMiddle | WheelUp | WheelDown

  /** termion's mouse event; coordinates are 1-based. */
  datatype TermionMouseEvent =
    | Press(button: MouseButton, x: nat, y: nat)
    | Release(x: nat, y: nat)
    | Hold(x: nat, y: nat)

  /** The letter or digit key a character names, in either letter case; no key otherwise. */
  function CharKey(c: char): (k: Keys.Key)
    ensures 'a' <= c <= 'z' ==> k == Keys.Letters[c as int - 'a' as int]
    ensures 'A' <= c <= 'Z' ==> k == Keys.Letters[c as int - 'A' as int]
    ensures '0' <= c <= '9' ==> k == Keys.Digits[c as int - '0' as int]
    ensures k == Keys.None <==> !IsLetterOrDigit(c)
  {
    Keys.LettersAndDigitsAreKeys();
    if 'a' <= c <= 'z' then Keys.Letters[c as int - 'a' as int]
    else if 'A' <= c <= 'Z' then Keys.Letters[c as int - 'A' as int]
    else if '0' <= c <= '9' then Keys.Digits[c as int - '0' as int]
    else Keys.None
  }

  predicate IsLetterOrDigit(c: char)
  {
    'a' <= c <= 'z' || 'A' <= c <= 'Z' || '0' <= c <= '9'
  }

  /** The key a termion key event names. A character names its letter or
      digit key whether plain, with Alt or with Ctrl; any other Alt or Ctrl
      combination names the modifier itself. */
  function GetKey(key: TermionKey): (k: Keys.Key)
    ensures key.Char? && !IsLetterOrDigit(key.c) ==> k == Keys.None
    ensures key.Alt? && !IsLetterOrDigit(key.c) ==> k == Keys.Menu
    ensures key.Ctrl? && !IsLetterOrDigit(key.c) ==> k == Keys.Control
    ensures key.F? ==> (k == Keys.None <==> !(1 <= key.n <= 12))
    ensures key.F? && 1 <= key.n <= 12 ==> k == Keys.FunctionKeys[key.n - 1]
    ensures key == BackTab || key == Null ==> k == Keys.None
  {
    Keys.LettersAndDigitsAreKeys();
    match key
    case Backspace => Keys.Back
    case Left => Keys.Left
    case Right => Keys.Right
    case Up => Keys.Up
    case Down => Keys.Down
    case Home => Keys.Home
    case End => Keys.End
    case PageUp => Keys.Prior
    case PageDown => Keys.Next
    case Delete => Keys.Delete
    case Insert => Keys.Insert
    case Esc => Keys.Escape
    case F(n) => if 1 <= n <= 12 then Keys.FunctionKeys[n - 1] else Keys.None
    case Char(c) => CharKey(c)
    case Alt(c) => if CharKey(c) != Keys.None then CharKey(c) else Keys.Menu
    case Ctrl(c) => if CharKey(c) != Keys.None then CharKey(c) else Keys.Control
    case _ => Keys.None
  }

  /** The same letter in either case, plain or with Alt or Ctrl, is one key. */
  lemma LetterCaseAndModifierAgnostic(i: nat)
    requires i < 26
    ensures GetKey(Char(('a' as int + i) as char)) == Keys.Letters[i]
    ensures GetKey(Char(('A' as int + i) as char)) == Keys.Letters[i]
    ensures GetKey(Alt(('a' as int + i) as char)) == Keys.Letters[i]
    ensures GetKey(Alt(('A' as int + i) as char)) == Keys.Letters[i]
    ensures GetKey(Ctrl(('a' as int + i) as char)) == Keys.Letters[i]
    ensures GetKey(Ctrl(('A' as int + i) as char)) == Keys.Letters[i]
  {
    var lower := ('a' as int + i) as char;
    var upper := ('A' as int + i) as char;
    assert CharKey(lower) == Keys.Letters[i];
    assert CharKey(upper) == Keys.Letters[i];
    Keys.LettersAndDigitsAreKeys();
  }

  /** A digit, plain or with Alt or Ctrl, is its digit key. */
  lemma DigitModifierAgnostic(i: nat)
    requires i < 10
    ensures GetKey(Char(('0' as int + i) as char)) == Keys.Digits[i]
    ensures GetKey(Alt(('0' as int + i) as char)) == Keys.Digits[i]
    ensures GetKey(Ctrl(('0' as int + i) as char)) == Keys.Digits[i]
  {
    var digit := ('0' as int + i) as char;
    assert CharKey(digit) == Keys.Digits[i];
    Keys.LettersAndDigitsAreKeys();
  }

  /** A termion mouse event: always a move, with at most one button flag set
      by a press of that button, and the wheel as a signed step. */
  function ProcessMouseEvent(event: TermionMouseEvent): (r: Result<Event>)
    requires event.x >= 1 && event.y >= 1
    ensures r.Ok? && r.value.Mouse?
    ensures r.value.mouse.eventType == MouseMove
    ensures r.value.mouse.leftButton <==> event == Press(MouseLeft, event.x, event.y)
    ensures r.value.mouse.middleButton <==> event == Press(MouseMiddle, event.x, event.y)
    ensures r.value.mouse.rightButton <==> event == Press(MouseRight, event.x, event.y)
    ensures !r.value.mouse.extraButton1 && !r.value.mouse.extraButton2
    ensures !r.value.mouse.extraButton3 && !r.value.mouse.extraButton4
    ensures Add(r.value.mouse.position, Point(1, 1)) == Point(event.x, event.y)
    ensures r.value.mouse.wheelDelta == 1 <==> event == Press(WheelUp, event.x, event.y)
    ensures r.value.mouse.wheelDelta == -1 <==> event == Press(WheelDown, event.x, event.y)
    ensures r.value.mouse.wheelDelta in {-1, 0, 1}
  {
    var button := if event.Press? then Some(event.button) else Option.None;
    Ok(Mouse(MouseEvent(
      MouseMove,
      button == Some(MouseLeft),
      button == Some(MouseMiddle),
      button == Some(MouseRight),
      false,
      false,
      false,
      false,
      Point(event.x - 1, event.y - 1),
      if button == Some(WheelUp) then 1
      else if button == Some(WheelDown) then -1
      else 0)))
  }

  /** A termion key event: always reported as a key-up with no code or
      character; Ctrl and Alt combinations set the left control and left menu flags. */
  function ProcessKeyEvent(key: TermionKey): (r: Result<Event>)
    ensures r.Ok? && r.value.Keyboard?
    ensures r.value.keyboard.eventType == KeyUp && r.value.keyboard.key == GetKey(key)
    ensures r.value.keyboard.keyCode == 0 && r.value.keyboard.character == ' '
    ensures r.value.keyboard.leftControl <==> key.Ctrl?
    ensures r.value.keyboard.leftMenu <==> key.Alt?
    ensures !r.value.keyboard.leftShift && !r.value.keyboard.rightShift
    ensures !r.value.keyboard.rightControl && !r.value.keyboard.rightMenu
  {
    Ok(Keyboard(KeyboardEvent(
      KeyUp,
      GetKey(key),
      0,
      ' ',
      key.Ctrl?,
      false,
      key.Alt?,
      false,
      false,
      false)))
  }
}
