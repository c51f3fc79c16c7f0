/** The closed sixteen-colour palette, in declaration order. */
module Colors {

  datatype Color =
    | Black
    | Red
    | DarkRed
    | Green
    | DarkGreen
    | Yellow
    | DarkYellow
    | Blue
    | DarkBlue
    | Magenta
    | DarkMagenta
    | Cyan
    | DarkCyan
    | Grey
    | DarkGrey
    | White
}
