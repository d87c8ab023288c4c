# uipartition core in Dafny

This project models the core of MontaVista's `uipartition`, a curses tool for
partitioning disks, and proves properties of the model. The core is two
parts.

**The display engine.**
- `FlexScrollPad` is a scrollable text buffer with per-character
  attributes, shown through a fixed-size window.
- `FlexScrollColumn` cuts every buffer line into fields of signed width.
  Fields of negative width cannot be selected, and width 0 means "the rest
  of the line". It keeps one highlighted, selectable field.
- Three popups are built on them: a message box that word-wraps its text
  (`Popup`), a list chooser (`PopupList`), and a form of fixed-width value
  fields (`PopupEditVals`, present identically in both packages,
  `UIpartition` and `mvpartition`).

**The pure rules of the partitioner** (`Partitioner.py`):
- sector alignment;
- the sorted list of used disk areas, and the check that a proposed area
  is free;
- the first-hole search behind the "add partition" command;
- the lowest free `/dev/mdN` number for a new RAID;
- renumbering the logical partitions of an extended partition after a
  delete;
- how the current line follows insertions and deletions;
- reading `/etc/fstab`;
- the filesystem-name lookup;
- the cycle of display units.

Layout of the model:
- **A pure specification.** `PadView` gives the pad's state as a value (a
  `View`) and every pad operation as a function. Each function returns the
  new `View` and the list of window operations it issues (a `Step`).
  `PadProps`, `PadRuns` and `PadFindings` prove what the pad promises about
  those functions. `ColumnView` does the same for the field lists of the
  column widget.
- **Imperative classes.** `FlexScrollPad.Pad`, `FlexScrollColumn.Column`,
  `Popup.Popup`, `PopupList.PopupList`, `PopupEditVals.EditVals`,
  `ExtendedPartition.Extended` and `Partitioner.Partitioner` have the
  source's fields. Each method's `ensures` gives the new state as the
  specification function of the old one. A pad's `surface` field logs the
  window operations it issued.
- **Loops.** Loops in the source are `while` loops with invariants. Each is
  proved equal to a recursive function, and the properties are proved about
  that function.
- **The window.** The curses window is not simulated. Its operations are
  data (`Surface.Op`), and the log records which ones were issued, in order.

## Model

| member | source | states |
|---|---|---|
| PadView.Init | UIpartition/FlexScrollPad.py:86-94 | a new pad has an empty buffer, satisfies the pad invariant and has the window size it was given |
| PadView.Clear | UIpartition/FlexScrollPad.py:185-199 | `clear` empties the buffer, keeps the invariant and issues exactly one window clear |
| PadView.YxParms | UIpartition/FlexScrollPad.py:200-217 | the position (given, or else the cursor) is accepted exactly when it is on a buffer line; the error names the operation, the line and the last valid line |
| PadView.AddInsParms | UIpartition/FlexScrollPad.py:218-253 | as above, but the line may be one past the end; the attribute defaults to the current one; "at the cursor" means no position was given |
| PadView.DisplayPosY | UIpartition/FlexScrollPad.py:100-109 | row -1 exactly when line y is outside the window; otherwise the row, which lies inside the window |
| PadView.DisplayPos | UIpartition/FlexScrollPad.py:110-125 | a span has a window position exactly when its line is shown and some of its columns overlap the window; the position is its offset from the window's corner |
| PadView.ShowSpan | UIpartition/FlexScrollPad.py:371-386 | the visible part of a write starts at a non-negative window column and ends by the window's right edge (the cut `_addstr` means; see Findings) |
| PadView.ShowSpanInWindow | UIpartition/FlexScrollPad.py:371-386 | a character of a write is drawn exactly when its buffer column is one of the window's columns |
| PadView.Overwrite | UIpartition/FlexScrollPad.py:338-369 | the overwritten line is as long as the longer of the old line and x + \|s\| |
| PadView.OverwriteAt | UIpartition/FlexScrollPad.py:338-369 | each position holds s where s was put, the old character elsewhere, and the fill character in a gap past the old end |
| PadView.InsertLn | UIpartition/FlexScrollPad.py:391-428 | `insertln` keeps the invariant and adds exactly one line |
| PadView.Deleteln | UIpartition/FlexScrollPad.py:429-481 | `deleteln` keeps the invariant and removes exactly one line |
| PadView.Addstr | UIpartition/FlexScrollPad.py:308-336 | `addstr` keeps the invariant and never shortens the buffer |
| PadView.Modattr | UIpartition/FlexScrollPad.py:254-307 | `modattr` changes only attributes: text, cursor and window are untouched |
| PadView.Scrolly | UIpartition/FlexScrollPad.py:482-536 | scrolling keeps the invariant: the top line stays on a buffer line |
| PadView.Insstr | UIpartition/FlexScrollPad.py:580-637 | `insstr` on its defined path keeps the invariant |
| PadProps.AddstrEffect | UIpartition/FlexScrollPad.py:308-390 | the string's pieces between line breaks are written from (y, x) on successive lines, and the buffer grows as needed; every other line and the window stay; at the cursor, the cursor ends just past the last piece |
| PadProps.InsertLnEffect | UIpartition/FlexScrollPad.py:391-428 | an empty line appears at y and lines from y move down one; the top line moves exactly when it is below y; the cursor moves exactly when it is below y and the insert is not at the cursor |
| PadProps.InsertLnKeepsPlace | UIpartition/FlexScrollPad.py:391-428 | after an insert, the top line, and the cursor when the insert is not at the cursor, still designate the same line of text unless they were on line y |
| PadProps.DeletelnEffect | UIpartition/FlexScrollPad.py:429-481 | line y goes and the later lines move up; the cursor and top line keep their line of text unless they were on y; the window never ends past the buffer |
| PadProps.InsertDeleteRoundTrip | UIpartition/FlexScrollPad.py:391-481 | deleting the line just inserted gives back the buffer, the window and the cursor column, and the cursor line too unless the buffer was empty with the cursor below line 0 |
| PadProps.ModattrEffect | UIpartition/FlexScrollPad.py:254-307 | only the attributes of line y in [x, x + xlen) change, to the new attribute; xlen -1 means the window width; from the end of the line on nothing changes |
| PadProps.DelchEffect | UIpartition/FlexScrollPad.py:638-656 | the character at x and its attribute are removed and the line closes up; beyond the end of the line nothing changes |
| PadProps.ClrtoeolEffect | UIpartition/FlexScrollPad.py:657-682 | line y and its attributes are cut to their first x entries; nothing else changes |
| PadProps.ClrtoeolOnWindow | UIpartition/FlexScrollPad.py:669-678 | `clrtoeol` clears exactly when the rest of line y from x is shown; it clears that row from x's window column, or from column 0 when x lies left of the window, and that column is inside the window |
| PadProps.AddstrInLine | UIpartition/FlexScrollPad.py:308-336 | a string without a line break is written into line y as one piece |
| PadProps.ClrtoeolRestore | UIpartition/FlexScrollPad.py:590-618 | cutting a line and writing the cut tail back run by run restores the line and its attributes exactly |
| PadProps.InsstrLine | UIpartition/FlexScrollPad.py:580-621 | inside a line, the line becomes `old[0:x] + s + old[x:]` and the tail keeps its own attributes; no other line changes |
| PadProps.InsstrState | UIpartition/FlexScrollPad.py:580-637 | the whole state after `insstr` inside a line |
| PadProps.InsstrCursor | UIpartition/FlexScrollPad.py:624-633 | at the cursor, the cursor ends just past the inserted text; otherwise a cursor on the tail moves right with its character, and any other cursor stays |
| PadProps.DelchInsstrRoundTrip | UIpartition/FlexScrollPad.py:580-656 | deleting the character just inserted gives back the line and its attributes |
| PadProps.RedispLineShows | UIpartition/FlexScrollPad.py:142-165 | a row is redrawn with writes on that row, inside the window; concatenated, their texts are exactly the visible part of the line and they carry exactly its attributes |
| PadProps.RedispRowsShown | UIpartition/FlexScrollPad.py:166-175 | redrawing rows writes only rows that show buffer lines, inside the window |
| PadProps.RedrawShown | UIpartition/FlexScrollPad.py:166-175 | `redraw` clears the window, then writes only inside it, only to rows that show lines |
| PadProps.ScrollyEffect | UIpartition/FlexScrollPad.py:482-536 | the top line moves by count, clamped to [0, last line]; it stays put when the window already reaches the end; buffer and cursor are unchanged |
| PadProps.ScrollyStill | UIpartition/FlexScrollPad.py:482-536 | a scroll that does not move the window issues no window operation |
| PadProps.ScrollyBackPolicy | UIpartition/FlexScrollPad.py:483-507 | a scroll back of a window height or more is a full redraw; a shorter one is m insertions at the top, then writes to the m exposed rows only |
| PadProps.ScrollyForwardPolicy | UIpartition/FlexScrollPad.py:508-533 | a scroll forward of a window height or more is a full redraw; a shorter one is m deletions, then writes to the bottom rows only, and only to rows that show lines |
| PadProps.ScrollxEffect | UIpartition/FlexScrollPad.py:537-548 | the window moves count columns and never left of column 0; it is redrawn; buffer, cursor and top line are unchanged |
| PadProps.ScrollxRoundTrip | UIpartition/FlexScrollPad.py:537-548 | scrolling sideways and back restores the window unless the first scroll was stopped at column 0 |
| PadProps.DisplayedLines | UIpartition/FlexScrollPad.py:549-564 | a line is shown exactly when it is between `getFirstDisplayedLine` and `getLastDisplayedLine` |
| PadProps.MoveGetxy | UIpartition/FlexScrollPad.py:565-579 | `getxy` after `move(y, x)` gives (y, x) |
| PadProps.RefreshCursor | UIpartition/FlexScrollPad.py:176-184 | when the cursor is on the window, the window cursor goes to its window position, inside the window |
| PadProps.DelchOnWindow | UIpartition/FlexScrollPad.py:638-656 | the window deletes a character exactly when it is shown, at its own window position, inside the window |
| PadRuns.RunLengthRun | UIpartition/FlexScrollPad.py:142-165 | the leading run is all one attribute, and the attribute changes right after it |
| PadRuns.RunsCover | UIpartition/FlexScrollPad.py:142-165 | coalescing loses nothing: the texts of the runs are the line, and their attributes are the line's |
| PadRuns.RunsMaximal | UIpartition/FlexScrollPad.py:142-165 | the runs are non-empty and laid end to end from the start column, and neighbouring runs differ in attribute |
| PadRuns.RunsWithin | UIpartition/FlexScrollPad.py:142-165 | no run extends past the end of the text |
| FlexScrollPad.SeqExt | UIpartition/FlexScrollPad.py:37-84 | s followed by count copies of x |
| FlexScrollPad.ScanRuns | UIpartition/FlexScrollPad.py:142-165 | the scanning loop issues exactly the maximal runs `PadRuns.Runs` |
| FlexScrollPad.Splice | UIpartition/FlexScrollPad.py:338-369 | the branches of `_addstr` give `Overwrite` of the text and of the attributes |
| FlexScrollPad.FillAttrs | UIpartition/FlexScrollPad.py:278-281 | the loop sets exactly positions [lo, hi) to the attribute |
| FlexScrollPad.Pad.constructor | UIpartition/FlexScrollPad.py:86-94 | the new pad is `PadView.Init`, with an empty window log |
| FlexScrollPad.Pad.Clear | UIpartition/FlexScrollPad.py:185-188 | the state becomes `PadView.Clear` of the old one, and its window operation is logged |
| FlexScrollPad.Pad.Redraw | UIpartition/FlexScrollPad.py:166-175 | only the log grows, by `PadView.Redraw` |
| FlexScrollPad.Pad.Refresh | UIpartition/FlexScrollPad.py:176-184 | only the log grows, by `PadView.Refresh` |
| FlexScrollPad.Pad.Modattr | UIpartition/FlexScrollPad.py:254-307 | bad position: an error and nothing changes; otherwise the state and log of `PadView.Modattr` |
| FlexScrollPad.Pad.Addstr | UIpartition/FlexScrollPad.py:308-336 | an error past the end plus one; otherwise the state and log of `PadView.Addstr` |
| FlexScrollPad.Pad.Insertln | UIpartition/FlexScrollPad.py:391-428 | the error case, else `PadView.InsertLn` |
| FlexScrollPad.Pad.Deleteln | UIpartition/FlexScrollPad.py:429-481 | the error case, else `PadView.Deleteln` |
| FlexScrollPad.Pad.Scrolly | UIpartition/FlexScrollPad.py:482-536 | the state and log of `PadView.Scrolly` |
| FlexScrollPad.Pad.Scrollx | UIpartition/FlexScrollPad.py:537-548 | the state and log of `PadView.Scrollx` |
| FlexScrollPad.Pad.Move | UIpartition/FlexScrollPad.py:569-579 | a line past the end is an error and changes nothing; otherwise only the cursor moves |
| FlexScrollPad.Pad.Insstr | UIpartition/FlexScrollPad.py:580-637 | the error case, else the state and log of `PadView.Insstr` |
| FlexScrollPad.Pad.Delch | UIpartition/FlexScrollPad.py:638-656 | the error case, else `PadView.Delch` |
| FlexScrollPad.Pad.Clrtoeol | UIpartition/FlexScrollPad.py:657-682 | the error case, else `PadView.Clrtoeol` |
| ColumnView.CheckPos | UIpartition/FlexScrollColumn.py:221-233 | a position error exactly when the line or the field does not exist |
| ColumnView.InsertRowEffect | UIpartition/FlexScrollColumn.py:163-181 | the lists stay parallel; the new line has one empty, ownerless field per width; the other lines move down one |
| ColumnView.DeleteRowEffect | UIpartition/FlexScrollColumn.py:182-191 | the lists stay parallel and the other lines keep their order |
| ColumnView.DeleteInsertRow | UIpartition/FlexScrollColumn.py:163-191 | deleting an inserted line gives the table back |
| ColumnView.RecolumnEffect | UIpartition/FlexScrollColumn.py:125-162 | fields before col keep widths, texts and owners; the rest become the new empty fields; no other line changes |
| ColumnView.SetFieldEffect | UIpartition/FlexScrollColumn.py:245-263 | the justified text is stored, the owner changes only when one is given, and no other field changes |
| ColumnView.SetObjGetObj | UIpartition/FlexScrollColumn.py:84-90 | `getObj` after `setObj` gives the owner that was set; everything else stays |
| ColumnView.OffsetOrder | UIpartition/FlexScrollColumn.py:193-219 | each field starts where the previous one ends, so no two fields overlap |
| ColumnView.OffsetPrefix | UIpartition/FlexScrollColumn.py:125-162 | a field's offset depends only on the widths before it, so `recolumn` leaves the kept fields in place |
| ColumnView.FitWidth | UIpartition/FlexScrollColumn.py:193-219 | a field is drawn exactly its width wide, cut or padded with spaces |
| ColumnView.ShowColEffect | UIpartition/FlexScrollColumn.py:193-219 | `_showcol` overwrites the line from the field's offset with the text fitted to the field's width, in the given attribute; no other line and no other column changes, and the one write is that text's visible part |
| ColumnView.JustifiedEffect | UIpartition/FlexScrollColumn.py:245-263 | right-justification pads on the left to the field width and keeps the text at the end; otherwise the text is unchanged |
| ColumnView.FirstFinds | UIpartition/FlexScrollColumn.py:264-294 | the walk finds a selectable field with only fixed fields before it, or leaves the line having seen only fixed fields |
| ColumnView.HighlightNearest | UIpartition/FlexScrollColumn.py:264-294 | the field picked is selectable and the nearest one in direction dir; if it lies the other way, none exists in direction dir |
| ColumnView.HighlightNone | UIpartition/FlexScrollColumn.py:264-294 | `highlightColumn` fails exactly when no field of the line is selectable |
| ColumnView.LineOfFirst | UIpartition/FlexScrollColumn.py:116-124 | `lineOf` finds the first line whose field holds obj; "not found" exactly when every line has that field and none holds obj |
| FlexScrollColumn.AppendEmpty | UIpartition/FlexScrollColumn.py:169-176 | the loops append exactly n empty texts and n null owners |
| FlexScrollColumn.DropFields | UIpartition/FlexScrollColumn.py:129-132 | deleting at index col until the end leaves exactly the fields before col |
| FlexScrollColumn.OffsetOf | UIpartition/FlexScrollColumn.py:196-202 | the loop computes the offset `ColumnView.Offset` |
| FlexScrollColumn.Search | UIpartition/FlexScrollColumn.py:264-290 | the two walks find a field exactly when `ColumnView.Highlight` does, and the same field |
| FlexScrollColumn.SkipFixed | UIpartition/FlexScrollColumn.py:295-304 | the first selectable field from col on, or an IndexError when only fixed fields follow |
| FlexScrollColumn.InsertLineBlank | UIpartition/FlexScrollColumn.py:163-181 | the pad line `insertLine` adds holds a window width of spaces; all other lines move down one |
| FlexScrollColumn.Column.constructor | UIpartition/FlexScrollColumn.py:54-63 | no lines, on a new empty pad of the window's size |
| FlexScrollColumn.Column.SetObj | UIpartition/FlexScrollColumn.py:88-90 | the lists become `ColumnView.SetObj` of the old ones; the pad is untouched |
| FlexScrollColumn.Column.InsertLine | UIpartition/FlexScrollColumn.py:163-181 | a line past the end is an error; otherwise `InsertRow`, and on the pad `insertln` followed by a row of spaces |
| FlexScrollColumn.Column.DeleteLine | UIpartition/FlexScrollColumn.py:182-191 | an error for a missing line; otherwise `DeleteRow`, and the pad's `deleteln` |
| FlexScrollColumn.Column.Recolumn | UIpartition/FlexScrollColumn.py:125-162 | the lists become `Recolumn` of the old ones; the pad line is cleared from col's offset and the new fields are drawn |
| FlexScrollColumn.Column.SetColumn | UIpartition/FlexScrollColumn.py:245-263 | a position error changes nothing; otherwise `SetField`, and the field is drawn |
| FlexScrollColumn.Column.HighlightColumn | UIpartition/FlexScrollColumn.py:264-294 | the field `ColumnView.Highlight` picks is returned and drawn standing out; with none, an error |
| FlexScrollColumn.Column.UnhighlightColumn | UIpartition/FlexScrollColumn.py:295-304 | after the position check, the first selectable field from col is drawn plainly |
| FlexScrollColumn.Column.LineOf | UIpartition/FlexScrollColumn.py:116-124 | the result of `ColumnView.LineOfFrom` from line 0 |
| Text.StripKeepsNonSpace | UIpartition/Popup.py:28 | `strip` removes only white space |
| Text.JoinSegments | UIpartition/Popup.py:73 | splitting at line breaks and joining with line breaks is the identity |
| Text.WordsAreWords | UIpartition/Partitioner.py:2694 | every piece `split()` returns is non-empty and free of white space |
| Text.Find | UIpartition/FlexScrollPad.py:318 | -1 exactly when c does not occur from p on; otherwise the first index of c from p |
| Popup.BreakUpEmpty | UIpartition/Popup.py:26-55 | the result is empty exactly for empty or all-white-space text |
| Popup.WrapLines | UIpartition/Popup.py:26-55 | every line is non-empty and starts with a non-space |
| Popup.WrapKeepsText | UIpartition/Popup.py:26-55 | the lines hold the text's non-space characters, in order, nothing lost or added |
| Popup.BreakUpKeepsText | UIpartition/Popup.py:26-55 | the same, for the strip-first `_breakupLine` |
| Popup.CutFits | UIpartition/Popup.py:38-51 | the first line, less trailing space, fits the width; with no space it is exactly the first ncols characters |
| Popup.WrapWidth | UIpartition/Popup.py:26-55 | every line fits the width once trailing space is removed, and the last fits as it is |
| Popup.BreakupLine | UIpartition/Popup.py:26-55 | the loop computes `BreakUp`, the recursive definition the lemmas are about |
| Popup.CutAt | UIpartition/Popup.py:38-53 | the scan stops at the first non-space at or past column ncols and remembers the last space before it |
| Popup.PopupKeepsText | UIpartition/Popup.py:71-81 | reformatting keeps every non-space character of the text, in order |
| Popup.PopupShowsLines | UIpartition/Popup.py:100-111 | after construction, pad line i is line i of the text, for every line written |
| Popup.KeyStepEffect | UIpartition/Popup.py:116-130 | UP/DOWN scroll one line and NPAGE/PPAGE a window height, clamped as `scrolly` clamps; then a refresh; text and cursor unchanged; with a `charHandler` or any other key the pad is left alone |
| Popup.MakeLines | UIpartition/Popup.py:71-81 | the loops compute `PopupLines` |
| Popup.Rows | UIpartition/Popup.py:83-98 | the inner window has the window's rows less the border, or fewer when there are fewer lines |
| Popup.Popup.constructor | UIpartition/Popup.py:64-114 | the lines are written one per row into a pad of the inner window size, at most one per row when reformatting |
| Popup.Popup.HandleChar | UIpartition/Popup.py:116-143 | always handled; the pad becomes `KeyStep` of the old pad; done is set by ENTER or by the `charHandler`'s answer; the done handler is notified exactly when done |
| PopupEditVals.HandleKeyValid | UIpartition/PopupEditVals.py:101-192 | every keystroke keeps each value `valsize` wide and the cursor on the field; the layout never changes |
| PopupEditVals.FinishKeys | UIpartition/PopupEditVals.py:103-116 | ENTER hands over the values and ESC/^C a cancellation; both set done and keep values and cursor |
| PopupEditVals.ArrowKeys | mvpartition/PopupEditVals.py:117-148 | an arrow moves the cursor one place unless it is at the edge, and changes nothing else |
| PopupEditVals.TypeChar | UIpartition/PopupEditVals.py:174-188 | a character replaces the one under the cursor, touching no other character or line; the cursor advances unless on the last column |
| PopupEditVals.BackspaceAtStart | UIpartition/PopupEditVals.py:149-173 | BACKSPACE on column 0 changes nothing |
| PopupEditVals.DeleteEffect | mvpartition/PopupEditVals.py:149-173 | BACKSPACE deletes left of the cursor and DEL under it; the tail moves left, a space enters at the end, and no other line changes |
| PopupEditVals.UnknownKey | UIpartition/PopupEditVals.py:101-190 | an unknown key name is not handled and changes nothing |
| PopupEditVals.JustifyLabelEffect | UIpartition/PopupEditVals.py:49-53 | a label no longer than the widest becomes exactly that wide: spaces, then the label |
| PopupEditVals.PadValueEffect | UIpartition/PopupEditVals.py:55-61 | the value is cut to `valsize` or padded with spaces to it |
| PopupEditVals.InitValid | UIpartition/PopupEditVals.py:31-87 | the new editor is valid, holds the padded values, and puts its value column two past the longest label |
| PopupEditVals.EntryLineLayout | mvpartition/PopupEditVals.py:45-64 | each line is the justified label, ": " and the value; the value starts at `valcol` and the line is one column short of the window |
| PopupEditVals.LongestLabel | UIpartition/PopupEditVals.py:37-44 | the loop finds the length of the longest label |
| PopupEditVals.Entries | UIpartition/PopupEditVals.py:46-64 | the loop gives the padded values and the lines shown |
| PopupEditVals.EditVals.constructor | UIpartition/PopupEditVals.py:31-87 | the state is `Init(info, valsize)` and the log holds the lines and the cursor drawn standing out |
| PopupEditVals.EditVals.HandleChar | mvpartition/PopupEditVals.py:101-192 | the new state, result, handover and window writes are those of `HandleKey`, followed by a refresh |
| PopupList.LastMatchIs | UIpartition/PopupList.py:51-61 | the start line is the last item shown as `curr`, or 0 when none is |
| PopupList.ListTableStep | UIpartition/PopupList.py:53-61 | one turn of the loop adds item i as a single field of the width, holding its label, with no owner |
| PopupList.ListFieldShows | UIpartition/PopupList.py:33-59 | every field is as wide as the longest label, so it shows the whole label padded with spaces |
| PopupList.ChooseMoves | UIpartition/PopupList.py:84-99 | UP/DOWN move exactly one line unless at an end; the line always stays on an item |
| PopupList.ChooseFinish | UIpartition/PopupList.py:70-83 | ENTER hands over the current item and ESC/^C hands over nothing; both set done |
| PopupList.ChooseOther | UIpartition/PopupList.py:68-101 | any other key is not handled and changes nothing |
| PopupList.MaxWidth | UIpartition/PopupList.py:33-40 | the loop finds the width of the widest label |
| PopupList.ListPadLines | UIpartition/PopupList.py:53-61 | with no line break in a label, the pad after the loop holds one line per item, its label fitted to the width, all plain, with window and cursor at the origin |
| PopupList.ListPopupShows | UIpartition/PopupList.py:53-63 | with no line break in a label, after `__init__` line i shows item i's label fitted to the width, only the current line stands out, and the highlight adds the one write of that line's text |
| PopupList.LoadItems | UIpartition/PopupList.py:51-61 | the loop gives the fields `ListTable`, the pad and log `ListPad`, and the start line `LastMatch` |
| PopupList.HighlightLoaded | UIpartition/PopupList.py:63 | `highlightColumn(curline, 0)` finds field 0, and the pad and log become `ListShown` |
| PopupList.PopupList.constructor | UIpartition/PopupList.py:25-66 | the column holds one line per item, a single field as wide as the widest label holding its label (`ListTable`); the current line is `LastMatch`: the last item shown as `curr`, else the first; `highlightColumn` picks field 0, and the pad and its log are `ListShown`: the items drawn one by one, then the current line's field redrawn standing out |
| PopupList.PopupList.HandleChar | UIpartition/PopupList.py:68-103 | the new line, done flag, result and handover are those of `Choose`; a move unhighlights the old line and highlights the new one |
| Keys.KeyOfChar | UIpartition/PopupEditVals.py:101-190 | a single character is an ordinary key; exactly the strings that are neither a key name nor one character are `Other` |
| PadFindings.ScrollyClampPastEnd | UIpartition/FlexScrollPad.py:513-514 | as written, ten lines in a three-line window scrolled by ten get top line 10, past the last line; the model stops at line 9 |
| PadFindings.ScrollyRedrawsPastEnd | UIpartition/FlexScrollPad.py:524-526 | as written, a partial forward scroll hands lines 10 and 11 of a ten-line buffer to `_redispLine` |
| PadFindings.ClipShiftsText | UIpartition/FlexScrollPad.py:376-386 | as written, "abcdef" at window column 2, with the window at column 5, is drawn as "def" at column 0 |
| PadFindings.RightCutPastEdge | UIpartition/FlexScrollPad.py:380-383 | as written, a string started inside the window is kept `dx - topx + ncols` long, past the right edge; the corrected write keeps what fits |
| PadFindings.ClearFromWrongColumn | UIpartition/FlexScrollPad.py:669-678 | as written, `clrtoeol` at window column 2, with the window at column 5, clears from column 0 |
| PadFindings.DisplayPosLeftOfWindow | UIpartition/FlexScrollPad.py:110-125 | as written, a character just left of the window is placed at window column -1 |
| PadFindings.BottomRowLeftBlank | UIpartition/FlexScrollPad.py:446-453 | as written, after a delete that leaves exactly enough lines to fill the window, the bottom row is not redrawn |
| PadFindings.DeletelnBottomRow | UIpartition/FlexScrollPad.py:446-453 | in the corrected model, when every row showed a line, the bottom row is redrawn with the line that now belongs there |
| PadFindings.CursorSlipsOnDelete | UIpartition/FlexScrollPad.py:456-466 | as written, the cursor stays on the same index and so moves to the next line's text; the corrected rule keeps it on its line |
| Sorting.SortAreasSorted | UIpartition/Partitioner.py:1333 | `used.sort()` gives an ordered permutation of the areas |
| Sorting.SortIntsSorted | UIpartition/Partitioner.py:958 | `craids.sort()` gives an ordered permutation of the numbers |
| PartitionOwner.AlignVIs | UIpartition/Partitioner.py:1292-1301 | aligning gives a multiple of the alignment: rounding up the least one at or above v, rounding down the greatest one at or below v; multiples are kept |
| PartitionOwner.UsedAreasAre | UIpartition/Partitioner.py:1324-1334 | the used areas are ordered and are exactly the partitions' areas plus the reserved end, when there is one |
| PartitionOwner.GetUsedAreas | UIpartition/Partitioner.py:1324-1334 | the collecting loop and the sort give `UsedAreas` |
| PartitionOwner.AreaCheckFree | UIpartition/Partitioner.py:1559-1582 | the corrected `checkAreaFree` accepts exactly the areas past the reserved start, whose last sector comes before the owner's end, of two sectors or more, and clear of each used area and its reserved gap |
| PartitionOwner.AcceptsSectorPastEnd | UIpartition/Partitioner.py:1567-1568 | as written, an area whose last sector is the first sector past the owner passes the end test; the corrected check refuses it |
| PartitionOwner.CheckAreaFree | UIpartition/Partitioner.py:1559-1582 | the bound checks, with the corrected end test, and the loop give the `AreaCheck` verdict, with its message |
| PartitionOwner.AddCmd | UIpartition/Partitioner.py:1355-1385 | the hole search of `addCmd` gives `Proposal`: the too-many-partitions and no-space errors, or a start and a size |
| PartitionOwner.ProposalAligned | UIpartition/Partitioner.py:1365-1385 | the proposed start and size are multiples of the alignment, and the size is not negative |
| PartitionOwner.ProposalIsFree | UIpartition/Partitioner.py:1355-1385 | when the used areas lie end to end without overlap, the proposed area passes the corrected `checkAreaFree`: it ends before the owner's end |
| RaidLabel.NewRaidNumber | UIpartition/Partitioner.py:946-966 | every md number below the result is used by a RAID under the label; when no two share a number, the result itself is unused |
| RaidLabel.CollectRaids | UIpartition/Partitioner.py:949-957 | the loop collects the numbers of the RAIDs directly below the label, up to the first line that is not a RAID |
| RaidLabel.CountUp | UIpartition/Partitioner.py:959-964 | the sorted numbers count 0, 1, 2, … up to the result, and break the count there |
| RaidLabel.MissingFromSorted | UIpartition/Partitioner.py:958-964 | where a sorted list of distinct naturals stops counting, that number is missing from the list |
| Fstab.NamedIsName | UIpartition/Partitioner.py:345-352 | a name gives exactly the filesystem type with that name, and no type for any other name |
| Fstab.ValidFilesystem | UIpartition/Partitioner.py:347-352 | the loop over the known types gives `Named` |
| Fstab.ReadFstab | UIpartition/Partitioner.py:2680-2706 | no file gives an empty table; otherwise the loop over the lines gives `ReadAll` |
| Fstab.ReadLine | UIpartition/Partitioner.py:2686-2704 | one turn of the loop gives the `Read` step for the line's kind |
| Fstab.ScanOk | UIpartition/Partitioner.py:2686-2704 | the file is read exactly when no line lacks a field it needs |
| Fstab.ScanKept | UIpartition/Partitioner.py:2690-2704 | the kept lines are the comments and the lines of unknown type, in file order |
| Fstab.ErrStays | UIpartition/Partitioner.py:2686-2704 | an error ends the reading, and no later line undoes it |
| Fstab.ScanHas | UIpartition/Partitioner.py:2694-2701 | a device has an entry exactly when some line is an entry for it |
| Fstab.ScanLast | UIpartition/Partitioner.py:2698-2701 | a device's entry comes from the last line that is an entry for it |
| ExtendedPartition.RenumberContiguous | UIpartition/Partitioner.py:1860-1871 | deleting any partition of a contiguous numbering and renumbering the rest leaves a contiguous numbering |
| ExtendedPartition.Extended.DelCmd | UIpartition/Partitioner.py:1860-1871 | the partition leaves the list; every remaining partition numbered at or above it drops by one, and the others keep their numbers |
| ExtendedPartition.Extended.Remove | UIpartition/Partitioner.py:1519-1536 | the partition is found at its index and deleted there; the list keeps no duplicates |
| ExtendedPartition.Rename | UIpartition/Partitioner.py:1864-1870 | the loop renames exactly the partitions numbered at least num |
| ExtendedPartition.IndexOf | UIpartition/Partitioner.py:1520-1525 | the index of the first occurrence |
| Units.CycleOfFour | UIpartition/Partitioner.py:157-190 | n steps of `allocNext` return to the start unit exactly when n is a multiple of four |
| Units.ReachesAll | UIpartition/Partitioner.py:157-190 | every unit is reached from every other in fewer than four steps |
| Partitioner.DeleteKeepsEntry | UIpartition/Partitioner.py:3068-3083 | deleting another line keeps the current line on the same entry, inside the list |
| Partitioner.DeleteCurrent | UIpartition/Partitioner.py:3075-3081 | deleting the current line moves to the entry that took its place, or to the last line; the position is inside the list unless the list is now empty |
| Partitioner.InsertKeepsEntry | UIpartition/Partitioner.py:3085-3096 | inserting a line keeps the current line on the same entry, never on the new line |
| Partitioner.Partitioner.constructor | UIpartition/Partitioner.py:3016-3017 | the position starts at line 0, field 0 |
| Partitioner.Partitioner.DeleteLine | UIpartition/Partitioner.py:3068-3083 | a missing line is an error and changes nothing; otherwise the column's `DeleteRow`; the position follows; when the current line went, the nearest selectable field is highlighted |
| Partitioner.Partitioner.InsertLine | UIpartition/Partitioner.py:3085-3096 | a line past the end is an error; otherwise the line goes in, its first field gets the object, and the position follows |

The log of window operations differs from what the source hands to
curses in these ways, with every window:

- A write that runs past the right edge is logged cut at the edge.
  `_addstr` as written hands curses `dx - topx + ncols` characters (see
  Findings), and `modattr` hands it the whole span.
- An empty piece of a write is not logged. The source still calls
  `_addstrHack` with the empty string, for instance for the empty piece
  after the line break in `addstr(y, 0, "ab\n")`.
- A `Write` stands for one call of `_addstrHack`. Its split of a string
  that ends at the bottom-right corner into `addstr` and `addch` is not
  shown.

The left clip and the `clrtoeol` column differ from the source only in a
window scrolled sideways (see Findings).

## Left out

- The curses window: `derwin`, `box` and border windows, and `curses.napms`
  in `insstr`. Window operations are recorded as `Surface.Op` values; their
  effect on a screen is not modelled.
- PadView.Addstr: the logged write is cut at the window's right edge.
  `_addstr` as written keeps `dx - topx + ncols` characters instead
  (UIpartition/FlexScrollPad.py:383), which is a finding below. What curses
  does with characters past the edge is not modelled.
- FlexScrollPad.Pad.Addstr: logs the writes of `PadView.Addstr`, so they
  are cut at the right edge in the same way.
- PadView.Insstr: the write of s and the writes of the tail's runs go
  through the `_addstr` clipping, so they are cut at the right edge as in
  `PadView.Addstr`.
- FlexScrollPad.Pad.Insstr: logs the writes of `PadView.Insstr`, cut in the
  same way.
- PadView.Modattr: the logged write is cut at the window's right edge.
  `modattr` hands curses the whole span and leaves the cut to it
  (UIpartition/FlexScrollPad.py:289-293).
- FlexScrollPad.Pad.Modattr: logs the write of `PadView.Modattr`, cut in
  the same way.
- Writes near the bottom-right corner: `_addstrHack` writes a string that
  ends exactly at the corner as an `addstr` of all but the last character
  and an `addch` of the last one inside a `try`
  (UIpartition/FlexScrollPad.py:126-138). The log keeps it as one `Write`;
  the ignored curses error is not modelled.
- PadView.Insstr: models only the defined path. A line break in `s` and an
  insertion point past the end of the line are excluded by
  `InsstrDefined`; there the source either fails or splits the line.
- Error messages are modelled by their parts (operation name, line, last
  line), not as formatted text. `addstr` gives its errors the name
  "insstr", as the source does (UIpartition/FlexScrollPad.py:309).
- PadView.Modattr: requires `xlen >= -1`. Other negative lengths, and every
  other negative Python index, are not modelled; `nat` positions replace
  them.
- Operations past the last line are modelled as the source's error results.
  Python IndexErrors raised by other list indexing, which the caller could
  catch, appear only where the code reaches them: `lineOf`,
  `unhighlightColumn`, and `Partitioner.deleteLine` of the only line, whose
  `highlightColumn(-1, 0)` reads `colsizes[-1]` of the now empty list
  (UIpartition/Partitioner.py:3075-3081; the model's `IndexError`, with
  the position left at -1). `highlightColumn` on a line without a
  selectable field is the column's own error, "Unable to find column to
  highlight" (UIpartition/FlexScrollColumn.py:287-289, `NoColumn`).
- FlexScrollColumn.Column.Recolumn: requires `col <= |cols[line]| +
  |sizes|`. For a larger col the source has already cut the line's lists
  when its loop over the new widths indexes past them and raises an
  IndexError; that partial change is not modelled.
- ColumnView.Highlight: the direction must be `LEFT` or `RIGHT`. Other
  steps would walk in strides the source never uses.
- `FlexScrollColumn.getFirstDisplayedLine`, `getLastDisplayedLine`,
  `scrolly`, `redraw`, `getWindow` and `getNumDisplayLines` are not modelled
  as members of the column. They only forward to the pad, whose operations
  are modelled.
- Callbacks are not modelled. `doneHandler` and `doneObj` are replaced by
  the `Handover` a keystroke returns. Popup.Popup.HandleChar takes
  `charHandler`'s answer as the parameter `answer` and returns whether the
  done handler would be called (`notify`).
- PopupList: each item's `str()` is replaced by a label given with it. An
  empty list is excluded, because `highlightColumn` fails on it.
- PopupEditVals.EditVals.constructor: requires a non-empty `info` and
  `valsize >= 1`. Otherwise `_setCursor` indexes past the end.
- Popup.Popup.constructor:
  - The vertical centering (`y += wlines / 2 - ...`) is left out. It only
    places the border window.
  - The window must have at least 2 rows and 2 columns.
  - When reformatting it needs at least 3 columns, since `_breakupLine`
    does not terminate for a width below 1.
- `Partitioner.insertLine` and `deleteLine`:
  - The `ids` dictionary is not modelled.
  - Only the position logic and the column calls are.
  - `getObj(line)` is modelled as the line's first field.
- `delCmd` is modelled only for its list work:
  - The `parted` call, `dest.shutdown`, the `deleteLine` call, the
    free-space update and the breaking of references are left out.
  - The partition must be in the list. The source's loop otherwise runs
    off its end.
- ExtendedPartition.Rename: models only the number change of `reName`. The
  device name and the line redraw are not modelled.
- RaidLabel: md numbers are given as naturals. Parsing the `/dev/mdN` name
  (`int(o.devname[7:])`) is not modelled.
- RaidLabel.NewRaidNumber: the result is claimed unused only when the RAIDs
  have distinct numbers. With a repeated number the count can stop on a
  number that is in use.
- PartitionOwner: `getAlignInfo` is not modelled. The two alignments are
  inputs, both at least 1 (`Aligned`).
- PartitionOwner.AddCmd: stops at the proposed start and size. Editing the
  proposal (`continueEdit`, `addEditDone`) is interactive and not modelled.
- PartitionOwner.ProposalIsFree: assumes the used areas lie end to end
  without overlap (`Laid`), that the reserved sizes are non-negative, and
  that the proposed size is at least 2 sectors. The source guarantees none
  of these for an arbitrary disk.
- Units: only the `allocNext` cycle and the unit names are modelled.
  `convToStr`, `convFromStr` and the dividers work in floating point and
  are left out.
- Fstab.ReadFstab: the file is modelled as `Option<seq<string>>`, `None`
  being a false `f`. A missing field is an `IndexError` result, as Python
  raises one.

## Findings

| source | as written | input that shows it | evidently intended | confidence | as-written member | corrected member |
|---|---|---|---|---|---|---|
| UIpartition/FlexScrollPad.py:513-514 | `if (self.topy + count > len(self.buf))` clamps the forward scroll only past the line count, so the top line can reach it | 10 lines, 3-line window at line 0, `scrolly(10)`: top line 10, the window shows nothing | `>=`: stop at the last line | not executed | PadFindings.ScrollyClampPastEnd | PadProps.ScrollyEffect |
| UIpartition/FlexScrollPad.py:524-526 | the partial forward scroll redraws window rows `nlines - count - 1` to `nlines - 1`, whether or not they show lines | 10 lines, 5-line window at line 4, `scrolly(3)`: `_redispLine` gets lines 10 and 11 of a 10-line buffer | redraw only the exposed rows that show lines | not executed | PadFindings.ScrollyRedrawsPastEnd | PadProps.ScrollyForwardPolicy |
| UIpartition/FlexScrollPad.py:377 | `_addstr` (and `modattr`) clip on `dx < self.topx`, comparing a window column with a buffer column | window at column 5; `addstr(0, 7, "abcdef")`: "def" is drawn at window column 0 | clip on `dx < 0` | not executed | PadFindings.ClipShiftsText | PadView.ShowSpan |
| UIpartition/FlexScrollPad.py:383 | `_addstr` keeps `s[:dx - self.topx + self.ncols]` of a string started inside the window, counting `topx` against the window column `dx` | 5-column window at column 0; `addstr(0, 3, "abcdefgh")`: all 8 characters are handed to curses at window column 3, where 2 fit | keep `s[:self.ncols - dx]` | not executed | PadFindings.RightCutPastEdge | PadView.ShowSpanInWindow |
| UIpartition/FlexScrollPad.py:673 | `clrtoeol` clears from window column 0 whenever `dx < self.topx` | window at column 5; `clrtoeol(0, 7)`: shown columns 5 and 6 are wiped | clear from window column `dx` | not executed | PadFindings.ClearFromWrongColumn | PadProps.ClrtoeolOnWindow |
| UIpartition/FlexScrollPad.py:114 | `_displaypos` treats a span as off the window only when `x + xlen < self.topx` | window at column 1: the character at column 0 is placed at window column -1, where `delch` and `refresh` address it | `x + xlen <= self.topx` | not executed | PadFindings.DisplayPosLeftOfWindow | PadProps.DelchOnWindow |
| UIpartition/FlexScrollPad.py:450 | after deleting a shown line, the bottom row is redrawn only when `self.topy + self.nlines < len(self.buf)` | 6 lines, 5-line window at line 0, `deleteln(0)`: line 4 belongs on the bottom row, which is left blank | `<=` | not executed | PadFindings.BottomRowLeftBlank | PadFindings.DeletelnBottomRow |
| UIpartition/FlexScrollPad.py:456-466 | when the top line falls off the end, the cursor is moved up only if it was on the top line | 10 lines, 1-line window at line 9, cursor on line 5, `deleteln(2)`: the cursor stays at 5, which now holds the old line 6 | also move the cursor up when it was below the deleted line | not executed | PadFindings.CursorSlipsOnDelete | PadProps.DeletelnEffect |
| UIpartition/Partitioner.py:1567-1568 | `checkAreaFree` refuses an area only when its last sector `end > self.partitionOffset + self.numsects`, the first sector past the owner | extended partition of 50 sectors at sector 100, reserving 1 at its beginning and 1 before each partition: `checkAreaFree(102, 49)` passes with last sector 150, past the owner's last sector 149 | `>=` | not executed | PartitionOwner.AcceptsSectorPastEnd | PartitionOwner.AreaCheckFree |
