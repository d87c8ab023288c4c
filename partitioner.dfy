/** The partitioner's line list: lines are inserted and deleted in the
    column display, and the current position (`linepos`, the highlighted
    line) follows, so that it stays on the same entry. */
module Partitioner {
  import opened Wrappers
  import opened Surface
  import Text
  import opened ColumnView
  import PadView
  import FlexScrollColumn

  /** The current line after line `line` is deleted, with n lines left:
      a line above moves it up; deleting the current line keeps the
      position, or the last line when it was past the end. */
  function PosAfterDelete(linepos: int, line: int, n: int): int
  {
    if line < linepos then linepos - 1
    else if line == linepos && linepos >= n then n - 1
    else linepos
  }

  /** The current line after a line is inserted at `line`: inserting at or
      above it moves it down. */
  function PosAfterInsert(linepos: int, line: int): int
  {
    if line <= linepos then linepos + 1 else linepos
  }

  /** Deleting another line keeps the current line on the same entry, and
      inside the list. */
  lemma DeleteKeepsEntry(t: Table, line: nat, linepos: int)
    requires Shaped(t) && line < |t.cols| && 0 <= linepos < |t.cols| && linepos != line
    ensures var q := PosAfterDelete(linepos, line, |t.cols| - 1);
      var r := DeleteRow(t, line);
      0 <= q < |r.cols| && r.objs[q] == t.objs[linepos] && r.cols[q] == t.cols[linepos]
  {
    DeleteRowEffect(t, line);
  }

  /** Deleting the current line leaves the current line on the entry that
      took its place, or on the new last line; it is inside the list unless
      the list is now empty. */
  lemma DeleteCurrent(t: Table, line: nat)
    requires Shaped(t) && line < |t.cols|
    ensures var q := PosAfterDelete(line, line, |t.cols| - 1);
      var r := DeleteRow(t, line);
      (0 <= q < |r.cols| <==> |r.cols| > 0) && (line < |r.cols| ==> q == line && r.objs[q] == t.objs[line + 1]) &&
      (line == |r.cols| ==> q == line - 1)
  {
    DeleteRowEffect(t, line);
  }

  /** Inserting a line keeps the current line on the same entry, and
      never on the new line. */
  lemma InsertKeepsEntry(t: Table, line: nat, sizes: seq<int>, obj: Obj, linepos: int)
    requires Shaped(t) && line <= |t.cols| && |sizes| > 0 && 0 <= linepos < |t.cols|
    ensures var q := PosAfterInsert(linepos, line);
      var r := InsertRow(t, line, sizes);
      0 <= q < |r.cols| && q != line && r.objs[q] == t.objs[linepos] && r.cols[q] == t.cols[linepos] &&
      ColumnView.SetObj(r, line, 0, obj).objs[q] == t.objs[linepos]
  {
    InsertRowEffect(t, line, sizes);
  }

  /** The partitioner, as far as its line list goes: the column display
      and the current line and field. */
  class Partitioner {
    const sc: FlexScrollColumn.Column
    var linepos: int
    var colpos: int

    /** The position `__init__` starts from. */
    constructor(sc: FlexScrollColumn.Column)
      ensures this.sc == sc && linepos == 0 && colpos == 0
    {
      this.sc := sc;
      linepos, colpos := 0, 0;
    }

    /** `deleteLine(line)`: `getObj(line)` fails on a line that is not
        there or has no field; otherwise the line goes from the display
        and the current line follows.  When it was the current line that
        went, the first selectable field of the new current line, looking
        right from field 0, is highlighted; with no lines left there is
        none (`colsizes[-1]` of an empty list). */
    method DeleteLine(line: nat) returns (err: Option<ColErr>)
      requires sc.Valid()
      modifies this`linepos, this`colpos, sc, sc.pad
      ensures sc.Valid()
      ensures old(line >= |sc.cols| || |sc.objs[line]| == 0) ==>
        err == Some(IndexError) && sc.Model() == old(sc.Model()) && linepos == old(linepos) &&
        colpos == old(colpos) && sc.pad.Model() == old(sc.pad.Model()) && sc.pad.surface == old(sc.pad.surface)
      ensures old(line < |sc.cols| && |sc.objs[line]| > 0) ==>
        var r := PadView.Deleteln(old(sc.pad.Model()), line);
        sc.Model() == DeleteRow(old(sc.Model()), line) &&
        linepos == PosAfterDelete(old(linepos), line, |sc.cols|) &&
        (line != old(linepos) ==>
          err == None && colpos == old(colpos) && sc.pad.Model() == r.v && sc.pad.surface == old(sc.pad.surface) + r.ops) &&
        (line == old(linepos) && linepos < 0 ==>
          err == Some(IndexError) && colpos == old(colpos) && sc.pad.Model() == r.v &&
          sc.pad.surface == old(sc.pad.surface) + r.ops) &&
        (line == old(linepos) && linepos >= 0 ==>
          match Highlight(sc.colsizes[linepos], 0, RIGHT)
          case None =>
            err == Some(NoColumn) && colpos == old(colpos) && sc.pad.Model() == r.v &&
            sc.pad.surface == old(sc.pad.surface) + r.ops
          case Some(c) =>
            var s := ShowCol(r.v, sc.ncols, sc.colsizes[linepos], sc.cols[linepos], linepos, c, STANDOUT);
            err == None && colpos == c && sc.pad.Model() == s.v && sc.pad.surface == old(sc.pad.surface) + r.ops + s.ops)
    {
      if line >= sc.NumLines() || |sc.objs[line]| == 0 {
        return Some(IndexError);
      }
      var e := sc.DeleteLine(line);
      if line < linepos {
        linepos := linepos - 1;
      } else if line == linepos {
        if linepos >= sc.NumLines() {
          linepos := sc.NumLines() - 1;
        }
        if linepos < 0 {
          return Some(IndexError);
        }
        var h := sc.HighlightColumn(linepos, 0, RIGHT);
        if h.Err? {
          return Some(h.error);
        }
        colpos := h.value;
      }
      return None;
    }

    /** `insertLine(line, cols, obj)`: a line of empty fields of the given
        widths goes in at `line` (`insertLine` fails past the end), obj
        becomes the owner of its first field (there is none when cols is
        empty, with the line already in), and the current line follows. */
    method InsertLine(line: nat, cols: seq<int>, obj: Obj) returns (err: Option<ColErr>)
      requires sc.Valid()
      modifies this`linepos, sc, sc.pad
      ensures sc.Valid()
      ensures old(line > |sc.cols|) ==>
        err == Some(LineRange("insertLine", line, old(|sc.cols|))) && sc.Model() == old(sc.Model()) &&
        linepos == old(linepos) && sc.pad.Model() == old(sc.pad.Model()) && sc.pad.surface == old(sc.pad.surface)
      ensures old(line <= |sc.cols|) ==>
        var t := InsertRow(old(sc.Model()), line, cols);
        var r1 := PadView.InsertLn(old(sc.pad.Model()), line, false);
        var r2 := PadView.Addstr(r1.v, line, 0, Text.FormatSpace(sc.ncols), r1.v.curattr, false);
        sc.pad.Model() == r2.v && sc.pad.surface == old(sc.pad.surface) + r1.ops + r2.ops &&
        (cols == [] ==> err == Some(IndexError) && sc.Model() == t && linepos == old(linepos)) &&
        (cols != [] ==>
          err == None && sc.Model() == ColumnView.SetObj(t, line, 0, obj) &&
          linepos == PosAfterInsert(old(linepos), line))
    {
      var e := sc.InsertLine(line, cols);
      if e.Some? {
        return e;
      }
      if |cols| == 0 {
        return Some(IndexError);
      }
      InsertRowEffect(old(sc.Model()), line, cols);
      sc.SetObj(line, 0, obj);
      if line <= linepos {
        linepos := linepos + 1;
      }
      return None;
    }
  }
}
