/** The pure translations of the ncurses backend: key codes read by `wgetch`
    into keys and characters, and the mouse-button latches it keeps between
    mouse reports. */
module NCursesInput {
  import opened Wrappers
  import opened Points
  import opened Events
  import Keys

  /** Key codes of the curses library (the `KEY_*` values). */
  const ErrCode: int := -1
  const BreakCode: int := 257
  const DownCode: int := 258
  const UpCode: int := 259
  const LeftCode: int := 260
  const RightCode: int := 261
  const HomeCode: int := 262
  const BackspaceCode: int := 263
  /** Function key n has code `F0Code + n`. */
  const F0Code: int := 264
  const DeleteCharCode: int := 330
  const ExitInsertCode: int := 332
  const ClearCode: int := 333
  const NextPageCode: int := 338
  const PreviousPageCode: int := 339
  const EnterCode: int := 343
  const PrintCode: int := 346
  const CancelCode: int := 355
  const MouseCode: int := 409

  /** The codes the key table names: tab, the digits, both letter cases, the
      arrow and editing keys and function keys 1 to 15. */
  predicate IsListed(code: int)
  {
    code == 9 || 48 <= code <= 57 || 65 <= code <= 90 || 97 <= code <= 122
    || BreakCode <= code <= BackspaceCode
    || F0Code + 1 <= code <= F0Code + 15
    || code in {DeleteCharCode, ExitInsertCode, ClearCode, NextPageCode, PreviousPageCode, EnterCode, PrintCode, CancelCode}
  }

  /** The key table as written. The left-arrow arm names a constant the
      module does not import, so it binds every code that reaches it: only
      the three codes before it escape. */
  function GetKeyAsWritten(code: int): (k: Keys.Key)
    ensures k != Keys.None
    ensures !(BreakCode <= code <= UpCode) ==> k == Keys.Left
  {
    if code == BreakCode then Keys.Pause
    else if code == DownCode then Keys.Down
    else if code == UpCode then Keys.Up
    else Keys.Left
  }

  /** As written, a letter, a digit, and even the error value `wgetch`
      returns when no key is waiting, all come out as the left arrow. */
  lemma GetKeyAsWrittenMapsAllToLeft()
    ensures GetKeyAsWritten(65) == Keys.Left && GetKey(65) == Keys.A
    ensures GetKeyAsWritten(48) == Keys.Left && GetKey(48) == Keys.Key0
    ensures GetKeyAsWritten(ErrCode) == Keys.Left && GetKey(ErrCode) == Keys.None
  {
    Keys.LettersAndDigitsAreKeys();
  }

  /** The key table with the left arrow bound to its own code: every listed
      code names its key, and every other code names no key. */
  function GetKey(code: int): (k: Keys.Key)
    ensures k == Keys.None <==> !IsListed(code)
    ensures code == LeftCode ==> k == Keys.Left
    ensures F0Code + 1 <= code <= F0Code + 15 ==> k == Keys.FunctionKeys[code - F0Code - 1]
  {
    Keys.LettersAndDigitsAreKeys();
    if code == BreakCode then Keys.Pause
    else if code == DownCode then Keys.Down
    else if code == UpCode then Keys.Up
    else if code == LeftCode then Keys.Left
    else if code == RightCode then Keys.Right
    else if code == HomeCode then Keys.Home
    else if code == BackspaceCode then Keys.Back
    else if F0Code + 1 <= code <= F0Code + 15 then Keys.FunctionKeys[code - F0Code - 1]
    else if code == DeleteCharCode then Keys.Delete
    else if code == ExitInsertCode then Keys.Insert
    else if code == ClearCode then Keys.Clear
    else if code == NextPageCode then Keys.Next
    else if code == PreviousPageCode then Keys.Prior
    else if code == EnterCode then Keys.Return
    else if code == PrintCode then Keys.Print
    else if code == CancelCode then Keys.Cancel
    else if 65 <= code <= 90 then Keys.Letters[code - 65]
    else if 97 <= code <= 122 then Keys.Letters[code - 97]
    else if 48 <= code <= 57 then Keys.Digits[code - 48]
    else if code == 9 then Keys.Tab
    else Keys.None
  }

  /** Upper- and lower-case codes of a letter name the same key; the digit
      codes name the digit keys and 9 names tab. */
  lemma LettersDigitsAndTab(i: nat)
    ensures i < 26 ==> GetKey(65 + i) == Keys.Letters[i] && GetKey(97 + i) == Keys.Letters[i]
    ensures i < 10 ==> GetKey(48 + i) == Keys.Digits[i]
    ensures GetKey(9) == Keys.Tab
  {
  }

  /** Whether a code is that of an ASCII letter or digit. */
  predicate IsAlphanumeric(code: int)
  {
    48 <= code <= 57 || 65 <= code <= 90 || 97 <= code <= 122
  }

  /** The character of a letter or digit code; a space for every other code. */
  function GetCharacter(code: int): (c: char)
    ensures IsAlphanumeric(code) ==> c as int == code
    ensures !IsAlphanumeric(code) ==> c == ' '
  {
    if IsAlphanumeric(code) then code as char else ' '
  }

  /** A key code as a key-down event, or nothing for a code that names no key.
      The 16-bit key code keeps the low 16 bits of the code; no modifier is reported. */
  function ProcessKeyEvent(code: int): (r: Option<Event>)
    ensures r.None? <==> !IsListed(code)
    ensures r.Some? ==> r.value.Keyboard? && r.value.keyboard.eventType == KeyDown
    ensures r.Some? ==> r.value.keyboard.key == GetKey(code) && r.value.keyboard.character == GetCharacter(code)
    ensures r.Some? ==> (r.value.keyboard.keyCode - code) % 0x1_0000 == 0
    ensures r.Some? ==> !r.value.keyboard.leftControl && !r.value.keyboard.leftShift && !r.value.keyboard.leftMenu
    ensures r.Some? ==> !r.value.keyboard.rightControl && !r.value.keyboard.rightShift && !r.value.keyboard.rightMenu
  {
    var key := GetKey(code);
    if key == Keys.None then Option.None
    else Some(Keyboard(KeyboardEvent(KeyDown, key, code % 0x1_0000, GetCharacter(code), false, false, false, false, false, false)))
  }

  /** The key event as written, on top of the as-written key table: every
      code, including the error value, becomes a key-down event. */
  function ProcessKeyEventAsWritten(code: int): (r: Option<Event>)
    ensures r.Some? && r.value.Keyboard? && r.value.keyboard.eventType == KeyDown
    ensures r.value.keyboard.key == GetKeyAsWritten(code)
  {
    var key := GetKeyAsWritten(code);
    if key == Keys.None then Option.None
    else Some(Keyboard(KeyboardEvent(KeyDown, key, code % 0x1_0000, GetCharacter(code), false, false, false, false, false, false)))
  }

  /** The terminal is read without waiting, so `wgetch` returns the error
      value whenever no key is pending. As written, each such poll queues a
      left-arrow key-down; with the corrected table it queues nothing. */
  lemma IdlePollReportsLeftArrow()
    ensures ProcessKeyEventAsWritten(ErrCode).value.keyboard.key == Keys.Left
    ensures ProcessKeyEvent(ErrCode) == Option.None
  {
  }

  /** Mouse-state bits the backend tests, by the names it gives them. */
  const Release1: bv32 := 0x1
  const Press1: bv32 := 0x2
  const Click1: bv32 := 0x4
  const DoubleClick1: bv32 := 0x8
  const TripleClick1: bv32 := 0x10
  const Release2: bv32 := 0x40
  const Press2: bv32 := 0x80
  const Click2: bv32 := 0x100
  const Release3: bv32 := 0x200
  const Press3: bv32 := 0x400
  const Click3: bv32 := 0x800
  const Release4: bv32 := 0x1000
  const Press4: bv32 := 0x2000
  const Click4: bv32 := 0x4000
  const DoubleClick4: bv32 := 0x8000
  const TripleClick4: bv32 := 0x1_0000
  const WheelUpBit: bv32 := 0x8_0000
  const WheelDownBit: bv32 := 0x800_0000

  /** The mouse report `getmouse` fills in. */
  datatype MEvent = MEvent(x: int, y: int, bstate: bv32)

  /** The button latches and last position the backend keeps between reports. */
  datatype Latches = Latches(leftButton: bool, middleButton: bool, rightButton: bool, extraButton1: bool, position: Point)

  function NewLatches(): (r: Latches)
    ensures !r.leftButton && !r.middleButton && !r.rightButton && !r.extraButton1
    ensures IsEmpty(r.position)
  {
    Latches(false, false, false, false, Empty())
  }

  predicate Has(bstate: bv32, bit: bv32)
  {
    bstate & bit != 0
  }

  /** A latch after a report: a press sets it, a release clears it, and the
      release is applied last so it wins when both are reported. */
  function Latch(held: bool, pressed: bool, released: bool): (r: bool)
    ensures released ==> !r
    ensures pressed && !released ==> r
    ensures !pressed && !released ==> r == held
  {
    var held := if pressed then true else held;
    if released then false else held
  }

  predicate AnyClick(bstate: bv32)
  {
    Has(bstate, Click1) || Has(bstate, Click2) || Has(bstate, Click3) || Has(bstate, Click4)
  }

  predicate AnyMultiClick(bstate: bv32)
  {
    Has(bstate, DoubleClick1) || Has(bstate, DoubleClick4) || Has(bstate, TripleClick1) || Has(bstate, TripleClick4)
  }

  /** The wheel-down bit counts only when the pointer has not moved since the last report. */
  predicate WheelDown(latches: Latches, event: MEvent)
  {
    Has(event.bstate, WheelDownBit) && event.x == latches.position.x && event.y == latches.position.y
  }

  /** The latches after a report. Button 3 drives the first extra button and
      button 4 the right button. */
  function NextLatches(latches: Latches, event: MEvent): (r: Latches)
    ensures r.leftButton == Latch(latches.leftButton, Has(event.bstate, Press1), Has(event.bstate, Release1))
    ensures r.middleButton == Latch(latches.middleButton, Has(event.bstate, Press2), Has(event.bstate, Release2))
    ensures r.extraButton1 == Latch(latches.extraButton1, Has(event.bstate, Press3), Has(event.bstate, Release3))
    ensures r.rightButton == Latch(latches.rightButton, Has(event.bstate, Press4), Has(event.bstate, Release4))
    ensures r.position == Point(event.x, event.y)
  {
    var b := event.bstate;
    Latches(
      Latch(latches.leftButton, Has(b, Press1), Has(b, Release1)),
      Latch(latches.middleButton, Has(b, Press2), Has(b, Release2)),
      Latch(latches.rightButton, Has(b, Press4), Has(b, Release4)),
      Latch(latches.extraButton1, Has(b, Press3), Has(b, Release3)),
      Point(event.x, event.y))
  }

  /** A mouse report as a mouse event together with the updated latches; when
      no report can be read, an error and the latches unchanged. */
  function ProcessMouseEvent(latches: Latches, report: Option<MEvent>): (r: (Result<Event>, Latches))
    ensures report.None? ==> r == (Err("Couldn't retrieve the mouse event."), latches)
    ensures report.Some? ==> r.1 == NextLatches(latches, report.value) && r.0.Ok? && r.0.value.Mouse?
  {
    match report
    case None => (Err("Couldn't retrieve the mouse event."), latches)
    case Some(event) =>
      var b := event.bstate;
      var next := NextLatches(latches, event);
      var wheelDown := WheelDown(latches, event);
      var kind :=
        if AnyClick(b) then Click
        else if AnyMultiClick(b) then DoubleClick
        else if wheelDown || Has(b, WheelUpBit) then Wheel
        else MouseMove;
      var mouse := MouseEvent(
        kind,
        next.leftButton || Has(b, Click1) || Has(b, DoubleClick1) || Has(b, TripleClick1),
        next.middleButton || Has(b, Click2),
        next.rightButton || Has(b, Click4) || Has(b, DoubleClick4) || Has(b, TripleClick4),
        next.extraButton1 || Has(b, Click3),
        false,
        false,
        false,
        Point(event.x, event.y),
        if Has(b, WheelUpBit) then -1 else if wheelDown then 1 else 0);
      (Ok(Mouse(mouse)), next)
  }

  /** What a successful report delivers: the kind by priority (click, then
      double or triple click, then wheel, then move), each button as its latch
      or one of its click bits, the report's position, and the wheel step. */
  lemma MouseEventFields(latches: Latches, event: MEvent)
    ensures var (result, next) := ProcessMouseEvent(latches, Some(event));
      var m := result.value.mouse;
      var b := event.bstate;
      && (m.eventType == Click <==> AnyClick(b))
      && (m.eventType == DoubleClick <==> !AnyClick(b) && AnyMultiClick(b))
      && (m.eventType == Wheel <==> !AnyClick(b) && !AnyMultiClick(b) && (Has(b, WheelUpBit) || WheelDown(latches, event)))
      && (m.leftButton <==> next.leftButton || Has(b, Click1) || Has(b, DoubleClick1) || Has(b, TripleClick1))
      && (m.middleButton <==> next.middleButton || Has(b, Click2))
      && (m.extraButton1 <==> next.extraButton1 || Has(b, Click3))
      && (m.rightButton <==> next.rightButton || Has(b, Click4) || Has(b, DoubleClick4) || Has(b, TripleClick4))
      && !m.extraButton2 && !m.extraButton3 && !m.extraButton4
      && m.position == Point(event.x, event.y)
      && (m.wheelDelta == -1 <==> Has(b, WheelUpBit))
      && (m.wheelDelta == 1 <==> !Has(b, WheelUpBit) && WheelDown(latches, event))
  {
  }

  /** The latches after a series of successful reports. */
  function Replay(latches: Latches, events: seq<MEvent>): (r: Latches)
    decreases |events|
  {
    if |events| == 0 then latches else Replay(ProcessMouseEvent(latches, Some(events[0])).1, events[1..])
  }

  /** Once pressed, the left button stays held, and every report says so,
      until a report carries its release bit. */
  lemma {:induction false} LeftHeldUntilReleased(latches: Latches, events: seq<MEvent>)
    requires latches.leftButton
    requires forall i :: 0 <= i < |events| ==> !Has(events[i].bstate, Release1)
    ensures Replay(latches, events).leftButton
    ensures forall i :: 0 <= i < |events| ==> ProcessMouseEvent(Replay(latches, events[..i]), Some(events[i])).0.value.mouse.leftButton
    decreases |events|
  {
    if |events| > 0 {
      var next := ProcessMouseEvent(latches, Some(events[0])).1;
      LeftHeldUntilReleased(next, events[1..]);
      forall i | 0 <= i < |events|
        ensures ProcessMouseEvent(Replay(latches, events[..i]), Some(events[i])).0.value.mouse.leftButton
      {
        if i > 0 {
          assert events[..i][1..] == events[1..][..i - 1];
          assert events[1..][i - 1] == events[i];
        }
      }
    }
  }
}
