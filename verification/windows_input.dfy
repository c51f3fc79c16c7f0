/** The pure translations of the Windows console backend: virtual-key codes
    to keys, wheel and character decoding, and the field mapping of console
    mouse and key records into events. */
module WindowsInput {
  import opened Points
  import opened Keys
  import opened Events

  /** The virtual-key codes the backend's table names, as runs of consecutive codes. */
  predicate IsListed(code: int)
  {
    0x01 <= code <= 0x06 ||
    0x08 <= code <= 0x09 ||
    0x0C <= code <= 0x0D ||
    0x10 <= code <= 0x15 ||
    0x17 <= code <= 0x19 ||
    0x1B <= code <= 0x39 ||
    0x41 <= code <= 0x5D ||
    0x5F <= code <= 0x87 ||
    0x90 <= code <= 0x91 ||
    0xA0 <= code <= 0xB7 ||
    0xBA <= code <= 0xC0 ||
    0xDB <= code <= 0xDF ||
    0xE5 <= code <= 0xE7 ||
    0xF6 <= code <= 0xFB ||
    0xFD <= code <= 0xFE
  }

  /** The key a virtual-key code names. The regular blocks (digits, letters,
      number pad, function keys) are laid out as contiguous code ranges. */
  function GetKey(code: U16): (k: Key)
    ensures 0x30 <= code <= 0x39 ==> k == Digits[code - 0x30]
    ensures 0x41 <= code <= 0x5A ==> k == Letters[code - 0x41]
    ensures 0x60 <= code <= 0x69 ==> k == NumPads[code - 0x60]
    ensures 0x70 <= code <= 0x87 ==> k == FunctionKeys[code - 0x70]
    ensures k == None <==> !IsListed(code)
  {
    if code < 0x30 then ControlKeys(code)
    else if code <= 0x39 then Digits[code - 0x30]
    else if 0x41 <= code <= 0x5A then Letters[code - 0x41]
    else if 0x60 <= code <= 0x69 then NumPads[code - 0x60]
    else if 0x70 <= code <= 0x87 then FunctionKeys[code - 0x70]
    else if code < 0x90 then SystemAndOperatorKeys(code)
    else if code < 0xB8 then LockModifierAndMediaKeys(code)
    else PunctuationAndImeKeys(code)
  }

  /** Codes below the digits: mouse buttons, editing, IME and navigation keys. */
  function ControlKeys(code: int): (k: Key)
    ensures code < 0x30 ==> (k == None <==> !IsListed(code))
  {
    match code
    case 0x01 => LeftButton
    case 0x02 => RightButton
    case 0x03 => Cancel
    case 0x04 => MiddleButton
    case 0x05 => XButton1
    case 0x06 => XButton2
    case 0x08 => Back
    case 0x09 => Tab
    case 0x0C => Clear
    case 0x0D => Return
    case 0x10 => Shift
    case 0x11 => Control
    case 0x12 => Menu
    case 0x13 => Pause
    case 0x14 => Capital
    case 0x15 => KanaHangelHangul
    case 0x17 => Junja
    case 0x18 => Final
    case 0x19 => HanjaKanji
    case 0x1B => Escape
    case 0x1C => Convert
    case 0x1D => NonConvert
    case 0x1E => Accept
    case 0x1F => ModeChange
    case 0x20 => Space
    case 0x21 => Prior
    case 0x22 => Next
    case 0x23 => End
    case 0x24 => Home
    case 0x25 => Left
    case 0x26 => Up
    case 0x27 => Right
    case 0x28 => Down
    case 0x29 => Select
    case 0x2A => Print
    case 0x2B => Execute
    case 0x2C => Snapshot
    case 0x2D => Insert
    case 0x2E => Delete
    case 0x2F => Help
    case _ => None
  }

  /** Codes between the letters and the lock keys: the Windows keys, sleep and the number-pad operators. */
  function SystemAndOperatorKeys(code: int): (k: Key)
    ensures 0x3A <= code < 0x90 && !(0x41 <= code <= 0x5A || 0x60 <= code <= 0x69 || 0x70 <= code <= 0x87) ==> (k == None <==> !IsListed(code))
  {
    match code
    case 0x5B => LeftWin
    case 0x5C => RightWin
    case 0x5D => Apps
    case 0x5F => Sleep
    case 0x6A => Multiply
    case 0x6B => Keys.Add
    case 0x6C => Separator
    case 0x6D => Subtract
    case 0x6E => Decimal
    case 0x6F => Divide
    case _ => None
  }

  /** The lock keys, the six left/right modifiers and the browser, volume, media and launch keys. */
  function LockModifierAndMediaKeys(code: int): (k: Key)
    ensures 0x90 <= code < 0xB8 ==> (k == None <==> !IsListed(code))
  {
    match code
    case 0x90 => NumLock
    case 0x91 => Scroll
    case 0xA0 => LeftShift
    case 0xA1 => RightShift
    case 0xA2 => LeftControl
    case 0xA3 => RightControl
    case 0xA4 => LeftMenu
    case 0xA5 => RightMenu
    case 0xA6 => BrowserBack
    case 0xA7 => BrowserForward
    case 0xA8 => BrowserRefresh
    case 0xA9 => BrowserStop
    case 0xAA => BrowserSearch
    case 0xAB => BrowserFavorites
    case 0xAC => BrowserHome
    case 0xAD => VolumeMute
    case 0xAE => VolumeDown
    case 0xAF => VolumeUp
    case 0xB0 => MediaNextTrack
    case 0xB1 => MediaPreviousTrack
    case 0xB2 => MediaStop
    case 0xB3 => MediaPlayPause
    case 0xB4 => LaunchMail
    case 0xB5 => LaunchMediaSelect
    case 0xB6 => LaunchApp1
    case 0xB7 => LaunchApp2
    case _ => None
  }

  /** The OEM punctuation keys, the IME process keys and the attention/play/zoom group, ending with the second code of Clear. */
  function PunctuationAndImeKeys(code: int): (k: Key)
    ensures 0xB8 <= code ==> (k == None <==> !IsListed(code))
  {
    match code
    case 0xBA => Oem1
    case 0xBB => Plus
    case 0xBC => Comma
    case 0xBD => Minus
    case 0xBE => Period
    case 0xBF => Oem2
    case 0xC0 => Oem3
    case 0xDB => Oem4
    case 0xDC => Oem5
    case 0xDD => Oem6
    case 0xDE => Oem7
    case 0xDF => Oem8
    case 0xE5 => ProcessKey
    case 0xE6 => ImeProcess
    case 0xE7 => Packet
    case 0xF6 => Attn
    case 0xF7 => CrSel
    case 0xF8 => ExSel
    case 0xF9 => EraseEof
    case 0xFA => Play
    case 0xFB => Zoom
    case 0xFD => PA1
    case 0xFE => Clear
    case _ => None
  }

  /** The left/right modifier codes 0xA0 to 0xA5, in order. */
  lemma ModifierCodes()
    ensures GetKey(0xA0) == LeftShift && GetKey(0xA1) == RightShift
    ensures GetKey(0xA2) == LeftControl && GetKey(0xA3) == RightControl
    ensures GetKey(0xA4) == LeftMenu && GetKey(0xA5) == RightMenu
  {
  }

  /** The home and arrow codes 0x24 to 0x28, in order. */
  lemma NavigationCodes()
    ensures GetKey(0x24) == Home && GetKey(0x25) == Left && GetKey(0x26) == Up
    ensures GetKey(0x27) == Right && GetKey(0x28) == Down
  {
  }

  /** Two codes name Clear, so the table is not injective. */
  lemma ClearHasTwoCodes()
    ensures GetKey(0x0C) == Clear && GetKey(0xFE) == Clear
  {
  }

  /** A 16-bit word read as a two's-complement signed value. */
  function Signed16(word: int): (r: I16)
    requires 0 <= word < 0x1_0000
    ensures r % 0x1_0000 == word
  {
    if word < 0x8000 then word else word - 0x1_0000
  }

  /** The reading is the only signed 16-bit value with that pattern. */
  lemma Signed16IsUnique(word: int, d: I16)
    requires 0 <= word < 0x1_0000 && d % 0x1_0000 == word
    ensures Signed16(word) == d
  {
  }

  /** The signed wheel distance a console mouse record carries in the high word
      of its button state; the low word, which holds the buttons, does not affect it. */
  function GetWheelDelta(buttonState: bv32): (r: I16)
  {
    Signed16(HighWord(buttonState))
  }

  function HighWord(word: bv32): (r: int)
    ensures 0 <= r < 0x1_0000
  {
    ((word >> 16) as bv16) as int
  }

  /** A button state whose high word is `high` and whose low word is `buttons`. */
  function PackButtonState(high: bv16, buttons: bv16): bv32
  {
    (high as bv32 << 16) | buttons as bv32
  }

  /** Whatever buttons are held, a delta the console stores in two's
      complement in the high word reads back as itself. */
  lemma WheelDeltaRoundTrip(high: bv16, buttons: bv16, delta: I16)
    requires delta % 0x1_0000 == high as int
    ensures GetWheelDelta(PackButtonState(high, buttons)) == delta
  {
    assert (PackButtonState(high, buttons) >> 16) as bv16 == high;
    Signed16IsUnique(high as int, delta);
  }

  /** The UTF-16 code unit as a character; a lone surrogate half, which is not
      a character, becomes a space. */
  function GetCharFromU16(unicode: U16): (r: char)
    ensures 0xD800 <= unicode <= 0xDFFF ==> r == ' '
    ensures !(0xD800 <= unicode <= 0xDFFF) ==> r as int == unicode
  {
    if 0xD800 <= unicode <= 0xDFFF then ' ' else unicode as char
  }

  /** Every character of the basic multilingual plane survives the trip through its code unit. */
  lemma CharRoundTrip(c: char)
    requires c as int < 0x1_0000
    ensures GetCharFromU16(c as int) == c
  {
  }

  /** Bits of the mouse record's button state. */
  const FromLeft1stButtonPressed: bv32 := 0x1
  const RightmostButtonPressed: bv32 := 0x2
  const FromLeft2ndButtonPressed: bv32 := 0x4
  const FromLeft3rdButtonPressed: bv32 := 0x8
  const FromLeft4thButtonPressed: bv32 := 0x10

  /** Values of the mouse record's event flags. */
  const MouseMoved: bv32 := 0x1
  const DoubleClickFlag: bv32 := 0x2
  const MouseWheeled: bv32 := 0x4
  const MouseHWheeled: bv32 := 0x8

  /** Bits of a key record's control-key state. */
  const RightAltPressed: bv32 := 0x1
  const LeftAltPressed: bv32 := 0x2
  const RightCtrlPressed: bv32 := 0x4
  const LeftCtrlPressed: bv32 := 0x8

  /** The fields of a console mouse record the backend reads. */
  datatype MouseRecord = MouseRecord(x: I16, y: I16, buttonState: bv32, eventFlags: bv32)

  /** The fields of a console key record the backend reads. `keyDown` is a
      Win32 BOOL: 1 while the key is pressed, 0 when it is released. */
  datatype KeyRecord = KeyRecord(keyDown: int, virtualKeyCode: U16, unicodeChar: U16, controlKeyState: bv32)

  /** The event kind of a set of mouse event flags. The vertical wheel flag is
      reported as a horizontal wheel and the other way round. */
  function MouseEventKind(flags: bv32): (r: MouseEventType)
    ensures r == Click <==> flags == 0
    ensures r == DoubleClick <==> flags == DoubleClickFlag
    ensures r == HorizontalWheel <==> flags == MouseWheeled
    ensures r == VerticalWheel <==> flags == MouseHWheeled
    ensures r != Wheel
  {
    if flags == 0 then Click
    else if flags == MouseMoved then MouseMove
    else if flags == MouseWheeled then HorizontalWheel
    else if flags == MouseHWheeled then VerticalWheel
    else if flags == DoubleClickFlag then DoubleClick
    else MouseMove
  }

  /** A console mouse record as a mouse event: one flag per button bit, the
      wheel delta from the high word, the record's position. */
  function ProcessMouseEvent(record: MouseRecord): (r: Event)
    ensures r.Mouse? && r.mouse.eventType == MouseEventKind(record.eventFlags)
    ensures r.mouse.leftButton <==> record.buttonState & FromLeft1stButtonPressed != 0
    ensures r.mouse.middleButton <==> record.buttonState & FromLeft2ndButtonPressed != 0
    ensures r.mouse.rightButton <==> record.buttonState & RightmostButtonPressed != 0
    ensures r.mouse.extraButton1 <==> record.buttonState & FromLeft3rdButtonPressed != 0
    ensures r.mouse.extraButton2 <==> record.buttonState & FromLeft4thButtonPressed != 0
    ensures !r.mouse.extraButton3 && !r.mouse.extraButton4
    ensures r.mouse.wheelDelta == GetWheelDelta(record.buttonState)
    ensures r.mouse.position == Point(record.x, record.y)
  {
    Mouse(MouseEvent(
      MouseEventKind(record.eventFlags),
      record.buttonState & FromLeft1stButtonPressed != 0,
      record.buttonState & FromLeft2ndButtonPressed != 0,
      record.buttonState & RightmostButtonPressed != 0,
      record.buttonState & FromLeft3rdButtonPressed != 0,
      record.buttonState & FromLeft4thButtonPressed != 0,
      false,
      false,
      Point(record.x, record.y),
      GetWheelDelta(record.buttonState)))
  }

  /** Whether a key-state word (as read for one shift key) has its "held" bit set. */
  predicate Held(keyState: bv16)
  {
    keyState & 0x8000 != 0
  }

  /** A key record as a keyboard event once its up/down kind is decided; the
      shift flags come from the two key-state words read alongside the record. */
  function KeyEventWith(kind: KeyboardEventType, record: KeyRecord, leftShiftState: bv16, rightShiftState: bv16): (r: Event)
    ensures r.Keyboard? && r.keyboard.eventType == kind
    ensures r.keyboard.key == GetKey(record.virtualKeyCode) && r.keyboard.keyCode == record.virtualKeyCode
    ensures r.keyboard.character == GetCharFromU16(record.unicodeChar)
    ensures r.keyboard.leftControl <==> record.controlKeyState & LeftCtrlPressed != 0
    ensures r.keyboard.rightControl <==> record.controlKeyState & RightCtrlPressed != 0
    ensures r.keyboard.leftMenu <==> record.controlKeyState & LeftAltPressed != 0
    ensures r.keyboard.rightMenu <==> record.controlKeyState & RightAltPressed != 0
    ensures r.keyboard.leftShift == Held(leftShiftState) && r.keyboard.rightShift == Held(rightShiftState)
  {
    Keyboard(KeyboardEvent(
      kind,
      GetKey(record.virtualKeyCode),
      record.virtualKeyCode,
      GetCharFromU16(record.unicodeChar),
      record.controlKeyState & LeftCtrlPressed != 0,
      Held(leftShiftState),
      record.controlKeyState & LeftAltPressed != 0,
      record.controlKeyState & RightCtrlPressed != 0,
      Held(rightShiftState),
      record.controlKeyState & RightAltPressed != 0))
  }

  /** The key mapping as written: a record counts as a release only when its
      down flag is -1, a value a Win32 BOOL does not take. */
  function ProcessKeyEventAsWritten(record: KeyRecord, leftShiftState: bv16, rightShiftState: bv16): (r: Event)
    ensures r.Keyboard? && (r.keyboard.eventType == KeyUp <==> record.keyDown == -1)
    ensures r == KeyEventWith(r.keyboard.eventType, record, leftShiftState, rightShiftState)
  {
    KeyEventWith(if record.keyDown == -1 then KeyUp else KeyDown, record, leftShiftState, rightShiftState)
  }

  /** As written, a release record (down flag 0) is reported as a key-down, so
      for the two values the flag takes no key-up is ever reported. */
  lemma ReleaseReportedAsKeyDown(record: KeyRecord, leftShiftState: bv16, rightShiftState: bv16)
    requires record.keyDown == 0 || record.keyDown == 1
    ensures ProcessKeyEventAsWritten(record, leftShiftState, rightShiftState).keyboard.eventType == KeyDown
  {
  }

  /** The key mapping with the release test on the BOOL's false value: a record
      is a key-up exactly when its down flag is 0. */
  function ProcessKeyEvent(record: KeyRecord, leftShiftState: bv16, rightShiftState: bv16): (r: Event)
    ensures r.Keyboard? && (r.keyboard.eventType == KeyUp <==> record.keyDown == 0)
    ensures r == KeyEventWith(r.keyboard.eventType, record, leftShiftState, rightShiftState)
  {
    KeyEventWith(if record.keyDown == 0 then KeyUp else KeyDown, record, leftShiftState, rightShiftState)
  }

  /** The corrected mapping tells a press from a release, and agrees with the
      written one on every field but the kind. */
  lemma PressAndReleaseDistinguished(record: KeyRecord, leftShiftState: bv16, rightShiftState: bv16)
    ensures record.keyDown == 1 ==> ProcessKeyEvent(record, leftShiftState, rightShiftState).keyboard.eventType == KeyDown
    ensures record.keyDown == 0 ==> ProcessKeyEvent(record, leftShiftState, rightShiftState).keyboard.eventType == KeyUp
    ensures ProcessKeyEvent(record, leftShiftState, rightShiftState).keyboard.(eventType := KeyDown)
         == ProcessKeyEventAsWritten(record, leftShiftState, rightShiftState).keyboard.(eventType := KeyDown)
  {
  }
}
