/** One grid slot: a character with its two colours. The record lists the
    background before the foreground, which the constructor must not confuse. */
module Cells {
  import opened Colors

  datatype Cell = Cell(character: char, background: Color, foreground: Color)

  /** Builds a cell from (character, foreground, background) argument order. */
  function New(character: char, foreground: Color, background: Color): (r: Cell)
    ensures r.character == character
    ensures r.foreground == foreground && r.background == background
  {
    Cell(character, background, foreground)
  }

  /** The neutral style: grey on black. */
  function NewDefault(character: char): (r: Cell)
    ensures r == New(character, Grey, Black)
    ensures r.character == character && r.foreground == Grey && r.background == Black
  {
    Cell(character, Black, Grey)
  }
}
