/** The Windows and termion key tables and the corrected ncurses table agree
    wherever they name the same key: a letter or digit, and the navigation
    keys, come out as one key whichever backend reads them. The ncurses table
    as written (`NCursesInput.GetKeyAsWritten`) agrees with neither, as
    `AsWrittenNCursesDisagrees` shows. */
module BackendAgreement {
  import Keys
  import NCursesInput
  import WindowsInput
  import TermionInput

  /** The character ncurses reports for a letter or digit code is one termion
      maps to the same key that ncurses reads from the code. */
  lemma CharacterNamesItsKey(code: int)
    requires NCursesInput.IsAlphanumeric(code)
    ensures TermionInput.CharKey(NCursesInput.GetCharacter(code)) == NCursesInput.GetKey(code)
  {
    var c := NCursesInput.GetCharacter(code);
    if 65 <= code <= 90 {
      assert TermionInput.CharKey(c) == Keys.Letters[code - 65];
    } else if 97 <= code <= 122 {
      assert TermionInput.CharKey(c) == Keys.Letters[code - 97];
    } else {
      assert TermionInput.CharKey(c) == Keys.Digits[code - 48];
    }
  }

  /** A letter: its ncurses code in either case, its Windows virtual-key
      code and its termion character in either case name one key. */
  lemma LettersAgree(i: nat)
    requires i < 26
    ensures NCursesInput.GetKey(65 + i) == Keys.Letters[i]
    ensures NCursesInput.GetKey(97 + i) == Keys.Letters[i]
    ensures WindowsInput.GetKey(0x41 + i) == Keys.Letters[i]
    ensures TermionInput.GetKey(TermionInput.Char((65 + i) as char)) == Keys.Letters[i]
    ensures TermionInput.GetKey(TermionInput.Char((97 + i) as char)) == Keys.Letters[i]
  {
    TermionInput.LetterCaseAndModifierAgnostic(i);
  }

  /** A digit names one key in all three backends. */
  lemma DigitsAgree(i: nat)
    requires i < 10
    ensures NCursesInput.GetKey(48 + i) == Keys.Digits[i]
    ensures WindowsInput.GetKey(0x30 + i) == Keys.Digits[i]
    ensures TermionInput.GetKey(TermionInput.Char((48 + i) as char)) == Keys.Digits[i]
  {
    TermionInput.DigitModifierAgnostic(i);
  }

  /** The function keys the backends share (1 to 12) name one key. */
  lemma FunctionKeysAgree(n: int)
    requires 1 <= n <= 12
    ensures NCursesInput.GetKey(NCursesInput.F0Code + n) == Keys.FunctionKeys[n - 1]
    ensures WindowsInput.GetKey(0x70 + n - 1) == Keys.FunctionKeys[n - 1]
    ensures TermionInput.GetKey(TermionInput.F(n)) == Keys.FunctionKeys[n - 1]
  {
  }

  /** The arrows and home name one key in all three backends. */
  lemma ArrowsAgree()
    ensures NCursesInput.GetKey(NCursesInput.LeftCode) == WindowsInput.GetKey(0x25) == TermionInput.GetKey(TermionInput.Left) == Keys.Left
    ensures NCursesInput.GetKey(NCursesInput.UpCode) == WindowsInput.GetKey(0x26) == TermionInput.GetKey(TermionInput.Up) == Keys.Up
    ensures NCursesInput.GetKey(NCursesInput.RightCode) == WindowsInput.GetKey(0x27) == TermionInput.GetKey(TermionInput.Right) == Keys.Right
    ensures NCursesInput.GetKey(NCursesInput.DownCode) == WindowsInput.GetKey(0x28) == TermionInput.GetKey(TermionInput.Down) == Keys.Down
    ensures NCursesInput.GetKey(NCursesInput.HomeCode) == WindowsInput.GetKey(0x24) == TermionInput.GetKey(TermionInput.Home) == Keys.Home
  {
    WindowsInput.NavigationCodes();
    NCursesArrows();
    TermionArrows();
  }

  /** As written, ncurses reads a letter, a digit, a function key and the
      right arrow as the left arrow, where Windows and termion read the key
      itself. */
  lemma AsWrittenNCursesDisagrees(i: nat)
    requires i < 10
    ensures NCursesInput.GetKeyAsWritten(65 + i) == Keys.Left
    ensures WindowsInput.GetKey(0x41 + i) == TermionInput.GetKey(TermionInput.Char((65 + i) as char)) == Keys.Letters[i] != Keys.Left
    ensures NCursesInput.GetKeyAsWritten(48 + i) == Keys.Left
    ensures WindowsInput.GetKey(0x30 + i) == TermionInput.GetKey(TermionInput.Char((48 + i) as char)) == Keys.Digits[i] != Keys.Left
    ensures NCursesInput.GetKeyAsWritten(NCursesInput.F0Code + 1 + i) == Keys.Left
    ensures WindowsInput.GetKey(0x70 + i) == TermionInput.GetKey(TermionInput.F(1 + i)) == Keys.FunctionKeys[i] != Keys.Left
    ensures NCursesInput.GetKeyAsWritten(NCursesInput.RightCode) == Keys.Left
    ensures WindowsInput.GetKey(0x27) == TermionInput.GetKey(TermionInput.Right) == Keys.Right != Keys.Left
  {
    LettersAgree(i);
    DigitsAgree(i);
    FunctionKeysAgree(1 + i);
    ArrowsAgree();
    Keys.LettersAndDigitsAreKeys();
  }

  lemma TermionArrows()
    ensures TermionInput.GetKey(TermionInput.Left) == Keys.Left
    ensures TermionInput.GetKey(TermionInput.Up) == Keys.Up
    ensures TermionInput.GetKey(TermionInput.Right) == Keys.Right
    ensures TermionInput.GetKey(TermionInput.Down) == Keys.Down
    ensures TermionInput.GetKey(TermionInput.Home) == Keys.Home
  {
  }

  lemma NCursesArrows()
    ensures NCursesInput.GetKey(NCursesInput.LeftCode) == Keys.Left
    ensures NCursesInput.GetKey(NCursesInput.UpCode) == Keys.Up
    ensures NCursesInput.GetKey(NCursesInput.RightCode) == Keys.Right
    ensures NCursesInput.GetKey(NCursesInput.DownCode) == Keys.Down
    ensures NCursesInput.GetKey(NCursesInput.HomeCode) == Keys.Home
  {
  }
}
