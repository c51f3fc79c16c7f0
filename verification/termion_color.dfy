/** The ANSI 16-colour index termion writes in escape sequences. */
module TermionColors {
  import opened Colors
  import UnixColors

  function ColorToU8(color: Color): (r: int)
    ensures 0 <= r <= 15
  {
    match color
    case Black => 0
    case DarkRed => 1
    case DarkGreen => 2
    case DarkYellow => 3
    case DarkBlue => 4
    case DarkMagenta => 5
    case DarkCyan => 6
    case Grey => 7
    case DarkGrey => 8
    case Red => 9
    case Green => 10
    case Yellow => 11
    case Blue => 12
    case Magenta => 13
    case Cyan => 14
    case White => 15
  }

  /** termion and curses number the colours alike; black, grey, dark grey and
      white sit at 0, 7, 8 and 15. */
  lemma AgreesWithCurses(color: Color)
    ensures ColorToU8(color) == UnixColors.ColorToI16(color)
    ensures ColorToU8(Black) == 0 && ColorToU8(Grey) == 7
    ensures ColorToU8(DarkGrey) == 8 && ColorToU8(White) == 15
  {
  }

  lemma ColorToU8Injective(a: Color, b: Color)
    ensures ColorToU8(a) == ColorToU8(b) ==> a == b
  {
    AgreesWithCurses(a);
    AgreesWithCurses(b);
    UnixColors.ColorToI16Injective(a, b);
  }
}
