/** The Windows console's 4-bit colour attribute: bit 0 blue, bit 1 green,
    bit 2 red, bit 3 intensity. */
module WindowsColors {
  import opened Colors

  /** Decodes the low four bits of a console attribute word; the rest of the word is ignored. */
  function GetColorFromU16(color: bv16): (r: Color)
    ensures r == GetColorFromU16(color & 0x0F)
  {
    var low := (color & 0x0F) as int;
    assert (color & 0x0F) & 0x0F == color & 0x0F;
    match low
    case 0 => Black
    case 1 => DarkBlue
    case 2 => DarkGreen
    case 3 => DarkCyan
    case 4 => DarkRed
    case 5 => DarkMagenta
    case 6 => DarkYellow
    case 7 => Grey
    case 8 => DarkGrey
    case 9 => Blue
    case 10 => Green
    case 11 => Cyan
    case 12 => Red
    case 13 => Magenta
    case 14 => Yellow
    case 15 => White
    case _ => Black
  }

  /** Encodes a colour as a console attribute in the low four bits. */
  function GetU16FromColor(color: Color): (r: bv16)
    ensures r <= 15
    ensures GetColorFromU16(r) == color
  {
    match color
    case Black => 0
    case DarkBlue => 1
    case DarkGreen => 2
    case DarkCyan => 3
    case DarkRed => 4
    case DarkMagenta => 5
    case DarkYellow => 6
    case Grey => 7
    case DarkGrey => 8
    case Blue => 9
    case Green => 10
    case Cyan => 11
    case Red => 12
    case Magenta => 13
    case Yellow => 14
    case White => 15
  }

  /** Decoding then encoding keeps exactly the low nibble, so every nibble has
      its colour and the default arm of the decoder is never reached. */
  lemma CodeRoundTrip(color: bv16)
    ensures GetU16FromColor(GetColorFromU16(color)) == color & 0x0F
  {
    var low := color & 0x0F;
    assert low < 16;
    assert GetColorFromU16(color) == GetColorFromU16(low);
    if low < 8 {
      if low < 4 {
        assert low == 0 || low == 1 || low == 2 || low == 3;
      } else {
        assert low == 4 || low == 5 || low == 6 || low == 7;
      }
    } else {
      if low < 12 {
        assert low == 8 || low == 9 || low == 10 || low == 11;
      } else {
        assert low == 12 || low == 13 || low == 14 || low == 15;
      }
    }
  }

  /** Distinct colours get distinct codes. */
  lemma GetU16FromColorInjective(a: Color, b: Color)
    ensures GetU16FromColor(a) == GetU16FromColor(b) ==> a == b
  {
    if GetU16FromColor(a) == GetU16FromColor(b) {
      calc {
        a;
        GetColorFromU16(GetU16FromColor(a));
        GetColorFromU16(GetU16FromColor(b));
        b;
      }
    }
  }
}
