/** Curses colour numbers and the foreground/background pair a cell is drawn with. */
module UnixColors {
  import opened Colors
  import opened Cells
  import WindowsColors

  datatype ColorPair = ColorPair(foreground: Color, background: Color)

  function New(foreground: Color, background: Color): (r: ColorPair)
    ensures r.foreground == foreground && r.background == background
  {
    ColorPair(foreground, background)
  }

  /** The pair a cell is drawn with. */
  function FromCell(cell: Cell): (r: ColorPair)
    ensures r == New(cell.foreground, cell.background)
  {
    ColorPair(cell.foreground, cell.background)
  }

  /** The curses colour number: bit 0 red, bit 1 green, bit 2 blue, bit 3 intensity. */
  function ColorToI16(color: Color): (r: int)
    ensures 0 <= r <= 15
  {
    match color
    case Black => 0
    case DarkRed => 1
    case DarkGreen => 2
    case DarkYellow => 3
    case DarkBlue => 4
    case DarkMagenta => 5
    case DarkCyan => 6
    case Grey => 7
    case DarkGrey => 8
    case Red => 9
    case Green => 10
    case Yellow => 11
    case Blue => 12
    case Magenta => 13
    case Cyan => 14
    case White => 15
  }

  /** Exchanges bit 0 and bit 2 of a 4-bit colour code. */
  function SwapRedBlue(code: bv16): bv16
  {
    (code & 0xA) | ((code & 1) << 2) | ((code & 4) >> 2)
  }

  /** The curses number is the Windows attribute with the red and blue bits exchanged. */
  lemma CursesIsWindowsWithRedBlueSwapped(color: Color)
    ensures ColorToI16(color) == SwapRedBlue(WindowsColors.GetU16FromColor(color)) as int
  {
  }

  /** Distinct colours get distinct numbers, so the numbers 0 to 15 name the
      sixteen colours one each. */
  lemma ColorToI16Injective(a: Color, b: Color)
    ensures ColorToI16(a) == ColorToI16(b) ==> a == b
  {
    CursesIsWindowsWithRedBlueSwapped(a);
    CursesIsWindowsWithRedBlueSwapped(b);
    var ca := WindowsColors.GetU16FromColor(a);
    var cb := WindowsColors.GetU16FromColor(b);
    SwapIsInvolution(ca);
    SwapIsInvolution(cb);
    WindowsColors.GetU16FromColorInjective(a, b);
  }

  lemma SwapIsInvolution(code: bv16)
    requires code <= 15
    ensures SwapRedBlue(SwapRedBlue(code)) == code
  {
  }
}
