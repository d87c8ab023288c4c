/** Places where `FlexScrollPad` as written departs from what its own
    comments and the rest of the class say it does.  Each is modelled here as
    written, with an input that shows the difference; `PadView` models the
    intended behaviour and `PadProps` proves it. */
module PadFindings {
  import opened Wrappers
  import opened Surface
  import opened Text
  import opened PadView
  import opened PadProps

  /** A pad of n empty lines shown nlines x ncols from the origin. */
  function Blank(n: nat, nlines: nat, ncols: nat): (v: View)
    ensures Valid(v) && |v.buf| == n
  {
    View(nlines, ncols, NORMAL, Repeat("", n), Repeat([], n), 0, 0, 0, 0)
  }

  // ---------------------------------------------------------------------
  // scrolly forward (UIpartition/FlexScrollPad.py:508-531)

  /** What a forward `scrolly` does as written: the new top line, whether it
      redraws the whole window, and otherwise the buffer lines it hands to
      `_redispLine` (rows nlines - count - 1 .. nlines - 1 of the moved
      window). */
  datatype ForwardScroll = ForwardScroll(topy: int, full: bool, redisp: seq<int>)

  function ScrollyForwardAsWritten(topy: nat, nlines: nat, len: nat, count: int): (r: ForwardScroll)
    requires count > 0
    ensures r.topy >= topy
  {
    if topy + nlines >= len then ForwardScroll(topy, false, [])
    else
      var c := if topy + count > len then len - topy - 1 else count;
      var t := topy + c;
      if c >= nlines then ForwardScroll(t, true, [])
      else ForwardScroll(t, false, seq(c + 1, k => t + nlines - c - 1 + k))
  }

  /** The clamp `topy + count > len` lets the top line reach the line count
      itself: ten lines in a three-line window, scrolled forward by ten, show
      nothing.  The intended clamp stops at the last line. */
  lemma ScrollyClampPastEnd()
    ensures ScrollyForwardAsWritten(0, 3, 10, 10).topy == 10
    ensures Scrolly(Blank(10, 3, 80), 10).v.topy == 9
  {
  }

  /** A partial forward scroll redraws rows past the end of the buffer:
      ten lines in a five-line window at line 4, scrolled by 3, hand lines
      10 and 11 to `_redispLine`, which indexes the buffer with them.  The
      intended scroll redraws only rows that show lines (`ScrollyForwardPolicy`). */
  lemma ScrollyRedrawsPastEnd()
    ensures var r := ScrollyForwardAsWritten(4, 5, 10, 3);
      !r.full && r.topy == 7 && r.redisp == [8, 9, 10, 11]
  {
    var r := ScrollyForwardAsWritten(4, 5, 10, 3);
    assert r.redisp == seq(4, k => 8 + k);
  }

  // ---------------------------------------------------------------------
  // left clipping in _addstr, modattr and clrtoeol
  // (UIpartition/FlexScrollPad.py:283-296, 373-386, 669-678)

  /** How `_addstr` places a string whose first character is at window
      column dx (possibly negative): the guard compares dx with topx, a
      buffer column. */
  function ClipAsWritten(topx: nat, ncols: nat, dx: int, s: string): (r: (int, string))
    ensures r.0 == (if dx < topx then 0 else dx)
  {
    if dx < topx then (0, Drop(s, topx - dx)) else (dx, Take(s, dx - topx + ncols))
  }

  /** A string started inside the window keeps dx - topx + ncols characters,
      counting its window column dx as a buffer column once more: with a
      five-column window at column 0, "abcdefgh" written at column 3 is
      handed to curses whole, three characters past the right edge, where
      only two fit.  The intended write keeps the two (`ShowSpan`, and
      `ShowSpanInWindow` proves it keeps exactly the characters inside the
      window). */
  lemma RightCutPastEdge()
    ensures ClipAsWritten(0, 5, 3, "abcdefgh") == (3, "abcdefgh")
    ensures DrawSpan(Blank(1, 1, 5), 0, 3, "abcdefgh", NORMAL) == [Write(0, 3, "ab", NORMAL)]
  {
    assert "abcdefgh"[0..2] == "ab";
  }

  /** How `clrtoeol` picks the window column to clear from. */
  function ClearColumnAsWritten(topx: nat, dx: int): int
  {
    if dx < topx then 0 else dx
  }

  /** With the window at column 5, "abcdef" written at buffer column 7
      (window column 2) comes out as "def" at window column 0; the intended
      write is all of it at column 2 (`ShowSpan`). */
  lemma ClipShiftsText()
    ensures ClipAsWritten(5, 10, 2, "abcdef") == (0, "def")
    ensures var v := Blank(1, 1, 10).(topx := 5);
      ShowSpan(v, 0, 7, 6) == Some(Span(0, 2, 0, 6))
  {
  }

  /** With the window at column 5, cutting a line at buffer column 7 clears
      the window from column 0, wiping the shown columns 5 and 6; the
      intended clear starts at window column 2. */
  lemma ClearFromWrongColumn()
    ensures ClearColumnAsWritten(5, 2) == 0
    ensures var v := Blank(1, 1, 10).(topx := 5, buf := ["0123456789"], attr := [Repeat(NORMAL, 10)]);
      Clrtoeol(v, 0, 7).ops == [ClearToEol(0, 2)]
  {
  }

  // ---------------------------------------------------------------------
  // _displaypos (UIpartition/FlexScrollPad.py:110-118)

  /** `_displaypos` as written: a span ending exactly at the window's left
      edge counts as shown. */
  function DisplayPosAsWritten(v: View, y: int, x: int, xlen: int): (p: Option<(int, int)>)
    ensures p.Some? ==> p.value == (y - v.topy, x - v.topx)
  {
    var dy := DisplayPosY(v, y);
    if dy == -1 then None
    else if x + xlen < v.topx then None
    else if x > v.topx + v.ncols - 1 then None
    else Some((dy, x - v.topx))
  }

  /** With the window at column 1, the character at column 0 is reported at
      window column -1, so `delch` and `refresh` would address column -1;
      the intended test reports it as not shown (and `DelchOnWindow` and
      `RefreshCursor` prove the column always inside the window). */
  lemma DisplayPosLeftOfWindow()
    ensures var v := Blank(1, 1, 10).(topx := 1);
      DisplayPosAsWritten(v, 0, 0, 1) == Some((0, -1)) && DisplayPos(v, 0, 0, 1) == None
  {
  }

  // ---------------------------------------------------------------------
  // deleteln (UIpartition/FlexScrollPad.py:445-476)

  /** The test `deleteln` uses, after deleting a shown line, to decide
      whether to redraw the bottom row of the window. */
  predicate RedrawsBottomAsWritten(topy: nat, nlines: nat, newlen: nat)
  {
    topy + nlines < newlen
  }

  /** Six lines in a five-line window from line 0: deleting line 0 leaves
      five lines, the last of which belongs on the bottom row, but the test
      says not to redraw it.  The intended test redraws it. */
  lemma BottomRowLeftBlank()
    ensures !RedrawsBottomAsWritten(0, 5, 5)
    ensures var v := Blank(6, 5, 10);
      Deleteln(v, 0).ops == [DeleteLine(0)] + RedispLine(Deleteln(v, 0).v, 4)
  {
  }

  /** After deleting line y from a window whose rows all show lines, the
      window and the current line stay put and the bottom row is redrawn
      with the line that now belongs on it. */
  lemma DeletelnBottomRow(v: View, y: nat)
    requires Valid(v) && y < |v.buf| && v.topy <= y < v.topy + v.nlines
    requires v.topy + v.nlines <= |v.buf| - 1
    ensures Deleteln(v, y).v == DeleteRow(v, y).(cury := if v.cury > y then v.cury - 1 else v.cury)
    ensures Deleteln(v, y).ops == [DeleteLine(y - v.topy)] + RedispLine(DeleteRow(v, y), v.nlines - 1)
  {
    var v1, py := DeleteRow(v, y), y - v.topy;
    assert DisplayPosY(v, y) == py;
    assert v.topy < |v1.buf| && v1.topy + v1.nlines <= |v1.buf|;
    assert DeleteRowOps(v1, py) == [DeleteLine(py)] + RedispLine(v1, v.nlines - 1);
  }

  /** The top line and cursor after `deleteln(y)` as written. */
  function DeletelnCursorAsWritten(topy: nat, cury: nat, y: nat, newlen: nat): (r: (int, int))
    ensures r.0 <= topy && r.1 <= cury
  {
    if topy >= newlen then
      if topy > 0 then (topy - 1, if topy == cury then cury - 1 else cury) else (topy, cury)
    else (if topy > y then topy - 1 else topy, if cury > y then cury - 1 else cury)
  }

  /** The ten lines "0".."9", window of one line at line 9, cursor on line
      5: `deleteln(2)` leaves the cursor at 5, which now holds "6"; the
      intended rule moves it to 4, still on "5" (`DeletelnEffect`). */
  lemma CursorSlipsOnDelete()
    ensures DeletelnCursorAsWritten(9, 5, 2, 9) == (8, 5)
    ensures var v := Blank(10, 1, 10).(buf := Digits(), attr := Repeat([NORMAL], 10), topy := 9, cury := 5);
      var w := Deleteln(v, 2).v;
      w.buf[5] == "6" && w.cury == 4 && w.buf[4] == "5"
  {
  }

  function Digits(): (d: seq<string>)
    ensures |d| == 10 && forall i :: 0 <= i < 10 ==> |d[i]| == 1
  {
    ["0", "1", "2", "3", "4", "5", "6", "7", "8", "9"]
  }
}
