/** The drawing surface the display engine writes to: a curses window seen
    only through the primitive operations the engine issues on it.  The
    engine's effect on the window is modelled as the ordered log of these
    operations. */
module Surface {

  /** A curses character attribute (a bit mask in curses). */
  type Attr = int

  /** The plain attribute. */
  const NORMAL: Attr := 0

  /** curses.A_STANDOUT as ncurses defines it (bit 16). */
  const STANDOUT: Attr := 0x1_0000

  /** One primitive operation on the window.  Rows and columns are window
      coordinates.  A `Write` is one call of `_addstrHack`, which hands the
      string to addstr, except that a string ending exactly at the
      bottom-right corner is written as an addstr of all but its last
      character and an addch of the last one whose error is ignored; the
      log does not separate the two. */
  datatype Op =
    | Write(row: int, col: int, text: string, attr: Attr)  // _addstrHack at (row, col)
    | InsertLine(row: int)                                  // insertln with the cursor on row
    | DeleteLine(row: int)                                  // deleteln with the cursor on row
    | ClearToEol(row: int, col: int)                        // move(row, col); clrtoeol()
    | DelCh(row: int, col: int)                             // delch(row, col)
    | ClearWindow                                           // clear()
    | MoveCursor(row: int, col: int)                        // move(row, col)
    | RefreshWindow                                         // refresh()
    | SetAttr(attr: Attr)                                   // attrset(attr)
}
