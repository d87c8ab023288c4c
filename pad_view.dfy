/** The state of a `FlexScrollPad` (UIpartition/FlexScrollPad.py) as a value,
    and every operation of the pad as a function from one state to the next
    together with the window operations it issues.  The class
    `FlexScrollPad.Pad` is specified by these functions; the properties the
    pad promises are proved about them in `PadProps`.

    The buffer is a list of lines `buf` with, in parallel, the attribute of
    every character `attr`.  The window shows `nlines` x `ncols` of it from
    line `topy`, column `topx`.  `cury`, `curx` is the current position. */
module PadView {
  import opened Wrappers
  import opened Surface
  import opened Text
  import opened PadRuns

  datatype View = View(
    nlines: nat, ncols: nat, curattr: Attr,
    buf: seq<string>, attr: seq<seq<Attr>>,
    topy: nat, topx: nat, cury: nat, curx: nat)

  /** The state after an operation, and the window operations it issued. */
  datatype Step = Step(v: View, ops: seq<Op>)

  /** `FlexScrollPadErr("<op> at <y>, last line was <last>")`. */
  datatype PadErr = PadErr(op: string, y: int, last: int)

  /** Every line has exactly one attribute per character. */
  predicate Parallel(v: View)
  {
    |v.buf| == |v.attr| && forall i :: 0 <= i < |v.buf| ==> |v.buf[i]| == |v.attr[i]|
  }

  /** The pad invariant: parallel lines and attributes, and the top line of
      the window is a line of the buffer unless it is line 0. */
  predicate Valid(v: View)
  {
    Parallel(v) && (v.topy == 0 || v.topy < |v.buf|)
  }

  /** `__init__` and `_clear`: an empty buffer shown from the origin. */
  function Init(nlines: nat, ncols: nat): (w: View)
    ensures Valid(w) && w.buf == [] && w.nlines == nlines && w.ncols == ncols
  {
    View(nlines, ncols, NORMAL, [], [], 0, 0, 0, 0)
  }

  /** `clear`: empty the buffer and the window. */
  function Clear(v: View): (r: Step)
    ensures Valid(r.v) && r.v.buf == [] && r.ops == [ClearWindow]
  {
    Step(v.(buf := [], attr := [], topy := 0, topx := 0, cury := 0, curx := 0), [ClearWindow])
  }

  /** `attrset`: the attribute used by default and for padding. */
  function Attrset(v: View, at: Attr): (r: Step)
  {
    Step(v.(curattr := at), [SetAttr(at)])
  }

  /** The position an operation is given, or the current position when it
      is given none. */
  function Where(v: View, pos: Option<(nat, nat)>): (nat, nat)
  {
    match pos
    case Some(p) => p
    case None => (v.cury, v.curx)
  }

  /** `_getyxparms`: the position of `delch` and `clrtoeol`, which must be
      on a line of the buffer. */
  function YxParms(v: View, pos: Option<(nat, nat)>, name: string): (r: Result<(nat, nat), PadErr>)
    ensures r.Ok? <==> Where(v, pos).0 < |v.buf|
    ensures r.Ok? ==> r.value == Where(v, pos)
    ensures r.Err? ==> r.error == PadErr(name, Where(v, pos).0, |v.buf| - 1)
  {
    var (y, x) := Where(v, pos);
    if y >= |v.buf| then Err(PadErr(name, y, |v.buf| - 1)) else Ok((y, x))
  }

  /** Where and how `addstr` and `insstr` write: the position, the
      attribute (by default the current one) and whether the write is at
      the current position. */
  datatype Target = Target(y: nat, x: nat, at: Attr, atCursor: bool)

  /** `_getaddinsparms`: the line may be one past the last, to append. */
  function AddInsParms(v: View, pos: Option<(nat, nat)>, at: Option<Attr>, name: string): (r: Result<Target, PadErr>)
    ensures r.Ok? <==> Where(v, pos).0 <= |v.buf|
    ensures r.Ok? ==> (r.value.y, r.value.x) == Where(v, pos)
    ensures r.Ok? ==> r.value.atCursor == pos.None? && r.value.at == at.GetOr(v.curattr)
    ensures r.Err? ==> r.error == PadErr(name, Where(v, pos).0, |v.buf|)
  {
    var (y, x) := Where(v, pos);
    var a := match at case Some(a) => a case None => v.curattr;
    if y > |v.buf| then Err(PadErr(name, y, |v.buf|)) else Ok(Target(y, x, a, pos.None?))
  }

  /** The path of `insstr` that is modelled: inside a line, the insertion
      point is before the end of the line and the string has no line break. */
  predicate InsstrDefined(v: View, pos: Option<(nat, nat)>, s: string)
  {
    var (y, x) := Where(v, pos);
    y < |v.buf| ==> x < |v.buf[y]| && '\n' !in s
  }

  /** `_displayposy`: the window row showing buffer line y, or -1. */
  function DisplayPosY(v: View, y: int): (dy: int)
    ensures dy == -1 <==> !(v.topy <= y < v.topy + v.nlines)
    ensures dy != -1 ==> 0 <= dy < v.nlines && dy == y - v.topy
  {
    if y < v.topy then -1
    else if y > v.topy + v.nlines - 1 then -1
    else y - v.topy
  }

  /** `_displaypos`: the window position of buffer position (y, x) when some
      of the xlen characters from there are shown.  Written with the test
      `x + xlen <= topx` for a span wholly left of the window; the source's
      `x + xlen < topx` is `PadFindings.DisplayPosAsWritten`. */
  function DisplayPos(v: View, y: int, x: int, xlen: int): (p: Option<(int, int)>)
    ensures p.Some? <==> v.topy <= y < v.topy + v.nlines && v.topx < x + xlen && x < v.topx + v.ncols
    ensures p.Some? ==> p.value == (y - v.topy, x - v.topx)
  {
    var dy := DisplayPosY(v, y);
    if dy == -1 then None
    else if x + xlen <= v.topx then None
    else if x > v.topx + v.ncols - 1 then None
    else Some((dy, x - v.topx))
  }

  /** Where a span of len buffer characters from (y, x) shows: window row
      and column of its first shown character, and the part [lo, hi) of the
      span that is inside the window. */
  datatype Span = Span(row: int, col: int, lo: nat, hi: nat)

  /** Buffer column x + i is one of the window's columns. */
  predicate InWindow(v: View, x: int, i: int)
  {
    v.topx <= x + i < v.topx + v.ncols
  }

  /** The visible part of a span, with the part left of the window and the
      part right of it cut off.  `_addstr`, `modattr` and `clrtoeol` clip
      on the left with the test `dx < topx` on the window column dx, and
      `_addstr` cuts on the right after dx - topx + ncols characters; that
      is `PadFindings.ClipAsWritten`, and this is the clipping they mean.
      `modattr` leaves the right cut to curses, and this cuts it here. */
  function ShowSpan(v: View, y: int, x: nat, len: nat): (r: Option<Span>)
    ensures r.Some? <==> DisplayPos(v, y, x, len).Some?
    ensures r.Some? ==>
      var sp := r.value;
      sp.row == y - v.topy && sp.lo <= sp.hi <= len &&
      sp.col == x + sp.lo - v.topx && 0 <= sp.col && sp.col + (sp.hi - sp.lo) <= v.ncols
  {
    match DisplayPos(v, y, x, len)
    case None => None
    case Some(p) =>
      var dx := p.1;
      var lo := if dx < 0 then -dx else 0;
      var hi := Min(len, v.ncols - dx);
      Some(Span(p.0, dx + lo, lo, hi))
  }

  /** The visible part is exactly the characters of the span inside the
      window's columns. */
  lemma ShowSpanInWindow(v: View, y: int, x: nat, len: nat)
    ensures var r := ShowSpan(v, y, x, len);
      r.Some? ==> forall i :: 0 <= i < len ==> (r.value.lo <= i < r.value.hi <==> InWindow(v, x, i))
  {
  }

  /** The window write that shows string s put at buffer position (y, x). */
  function DrawSpan(v: View, y: int, x: nat, s: string, at: Attr): seq<Op>
  {
    match ShowSpan(v, y, x, |s|)
    case None => []
    case Some(sp) => [Write(sp.row, sp.col, s[sp.lo..sp.hi], at)]
  }

  /** Python `line[0:x] + s + line[x + len(s):]`, with the gap between the end
      of line and x, if any, filled with `fill` (the branches of `_addstr`). */
  function Overwrite<T>(line: seq<T>, x: nat, s: seq<T>, fill: T): (r: seq<T>)
    ensures |r| == Max(|line|, x + |s|)
  {
    if x < |line| then
      if x + |s| < |line| then line[..x] + s + line[x + |s|..] else line[..x] + s
    else if x > |line| then line + Repeat(fill, x - |line|) + s
    else line + s
  }

  /** Each position of the overwritten line holds s where s was put, the
      old line elsewhere, and the fill in a gap past the old end. */
  lemma OverwriteAt<T>(line: seq<T>, x: nat, s: seq<T>, fill: T)
    ensures forall i :: 0 <= i < |Overwrite(line, x, s, fill)| ==>
      Overwrite(line, x, s, fill)[i] == (if x <= i < x + |s| then s[i - x] else if i < |line| then line[i] else fill)
  {
  }

  /** a with the positions [lo, hi) set to x. */
  function SetRange<T>(a: seq<T>, lo: nat, hi: nat, x: T): (r: seq<T>)
    requires lo <= hi <= |a|
    ensures |r| == |a|
  {
    a[..lo] + Repeat(x, hi - lo) + a[hi..]
  }

  lemma SetRangeAt<T>(a: seq<T>, lo: nat, hi: nat, x: T)
    requires lo <= hi <= |a|
    ensures forall i :: 0 <= i < |a| ==> SetRange(a, lo, hi, x)[i] == (if lo <= i < hi then x else a[i])
  {
  }

  /** The buffer half of `_addstr`: overwrite line y from column x with s
      in attribute at; the gap past the old end is padded with spaces in
      `curattr`. */
  function PutLine(v: View, y: nat, x: nat, s: string, at: Attr): (w: View)
    requires Valid(v) && y < |v.buf|
    ensures Valid(w) && |w.buf| == |v.buf|
    ensures w.(buf := v.buf, attr := v.attr) == v
  {
    v.(buf := v.buf[y := Overwrite(v.buf[y], x, s, ' ')],
       attr := v.attr[y := Overwrite(v.attr[y], x, Repeat(at, |s|), v.curattr)])
  }

  /** `_addstr`: `PutLine`, and the write that shows the visible part. */
  function LineAdd(v: View, y: nat, x: nat, s: string, at: Attr): (r: Step)
    requires Valid(v) && y < |v.buf|
    ensures Valid(r.v) && |r.v.buf| == |v.buf|
    ensures r.v.(buf := v.buf, attr := v.attr) == v
  {
    Step(PutLine(v, y, x, s, at), DrawSpan(v, y, x, s, at))
  }

  /** `insertln(y)`: an empty line at y.  The current position and the top
      line of the window move down when they are below y. */
  function InsertLn(v: View, y: nat, atCursor: bool): (r: Step)
    requires Valid(v) && y <= |v.buf|
    ensures Valid(r.v) && |r.v.buf| == |v.buf| + 1
  {
    var py := DisplayPosY(v, y);
    Step(v.(buf := v.buf[..y] + [""] + v.buf[y..],
            attr := v.attr[..y] + [[]] + v.attr[y..],
            cury := if v.cury > y && !atCursor then v.cury + 1 else v.cury,
            topy := if v.topy > y then v.topy + 1 else v.topy),
         if py >= 0 then [InsertLine(py)] else [])
  }

  /** `_redispLine(ywin)`: the writes that redraw window row ywin, one per
      maximal run of equal attribute in the visible part of its line. */
  function RedispLine(v: View, ywin: nat): seq<Op>
    requires Parallel(v) && v.topy + ywin < |v.buf|
  {
    var i := v.topy + ywin;
    Runs(ywin, 0, Slice(v.buf[i], v.topx, v.topx + v.ncols), Slice(v.attr[i], v.topx, v.topx + v.ncols))
  }

  /** The redraws of window rows lo, lo + 1, ... below hi, stopping at the
      first row past the end of the buffer. */
  function RedispRows(v: View, lo: nat, hi: int): seq<Op>
    requires Parallel(v)
    decreases hi - lo
  {
    if lo >= hi || v.topy + lo >= |v.buf| then []
    else RedispLine(v, lo) + RedispRows(v, lo + 1, hi)
  }

  /** `redraw`: clear the window and redraw every row that shows a line. */
  function Redraw(v: View): seq<Op>
    requires Parallel(v)
  {
    [ClearWindow] + RedispRows(v, 0, v.nlines)
  }

  /** `deleteln(y)`: remove line y.  The current position and the top line
      move up when they were below y.  If that leaves the top line past the
      end, the window moves up a line, and the current position with it when
      it was on the top line.  When the deleted line was shown, the window
      deletes its row and, if the buffer reaches the bottom row, redraws that
      row.  The source's test for the bottom row and its cursor rule when the
      top line falls off the end are `PadFindings.RedrawsBottomAsWritten` and
      `PadFindings.DeletelnCursorAsWritten`. */
  function Deleteln(v: View, y: nat): (r: Step)
    requires Valid(v) && y < |v.buf|
    ensures Valid(r.v) && |r.v.buf| == |v.buf| - 1
  {
    var v1 := DeleteRow(v, y);
    var ops1 := DeleteRowOps(v1, DisplayPosY(v, y));
    if v.topy >= |v1.buf| then
      if v.topy > 0 then
        var v2 := v1.(cury := if v.topy == v.cury || v.cury > y then v.cury - 1 else v.cury, topy := v.topy - 1);
        Step(v2, ops1 + RedispLine(v2, 0))
      else Step(v1, ops1)
    else
      Step(v1.(cury := if v.cury > y then v.cury - 1 else v.cury,
               topy := if v.topy > y then v.topy - 1 else v.topy), ops1)
  }

  /** The buffer of `deleteln(y)` before the window and the current
      position are adjusted: line y and its attributes removed. */
  function DeleteRow(v: View, y: nat): (w: View)
    requires Parallel(v) && y < |v.buf|
    ensures Parallel(w) && |w.buf| == |v.buf| - 1
  {
    v.(buf := v.buf[..y] + v.buf[y + 1..], attr := v.attr[..y] + v.attr[y + 1..])
  }

  /** What `deleteln` does to the window before it moves, given the
      buffer v1 without the deleted line and the window row py that showed
      it (or -1): delete that row and, if the buffer reaches the bottom row,
      redraw that row. */
  function DeleteRowOps(v1: View, py: int): seq<Op>
    requires Parallel(v1)
  {
    if py >= 0 then
      [DeleteLine(py)] + (if v1.topy + v1.nlines <= |v1.buf| && v1.nlines > 0 then RedispLine(v1, v1.nlines - 1) else [])
    else []
  }

  /** One piece of `addstr`: append a line when y is past the end of the
      buffer, then `_addstr` the piece seg at (y, x). */
  function AddSeg(v: View, y: nat, x: nat, seg: string, at: Attr): (r: Step)
    requires Valid(v) && y <= |v.buf|
    ensures Valid(r.v) && |r.v.buf| == Max(|v.buf|, y + 1)
  {
    var r1 := if y >= |v.buf| then InsertLn(v, y, false) else Step(v, []);
    var r2 := LineAdd(r1.v, y, x, seg, at);
    Step(r2.v, r1.ops + r2.ops)
  }

  /** The buffer after `addstr` of the segments of a string between its
      line breaks: the first goes at (y, x), every further one at column 0
      of the next line. */
  function PutSegs(v: View, y: nat, x: nat, segs: seq<string>, at: Attr): (w: View)
    requires Valid(v) && y <= |v.buf| && |segs| >= 1
    ensures Valid(w) && |w.buf| == Max(|v.buf|, y + |segs|)
    decreases |segs|
  {
    var r := AddSeg(v, y, x, segs[0], at);
    if |segs| == 1 then r.v else PutSegs(r.v, y + 1, 0, segs[1..], at)
  }

  /** The window operations of `addstr` of segments, in the order
      `PutSegs` makes the changes they show. */
  function DrawSegs(v: View, y: nat, x: nat, segs: seq<string>, at: Attr): seq<Op>
    requires Valid(v) && y <= |v.buf| && |segs| >= 1
    decreases |segs|
  {
    var r := AddSeg(v, y, x, segs[0], at);
    if |segs| == 1 then r.ops else r.ops + DrawSegs(r.v, y + 1, 0, segs[1..], at)
  }

  /** `addstr` of segments: the new buffer and what is drawn. */
  function AddSegs(v: View, y: nat, x: nat, segs: seq<string>, at: Attr): (r: Step)
    requires Valid(v) && y <= |v.buf| && |segs| >= 1
    ensures Valid(r.v) && |r.v.buf| == Max(|v.buf|, y + |segs|)
  {
    Step(PutSegs(v, y, x, segs, at), DrawSegs(v, y, x, segs, at))
  }

  /** The column of the current position after `addstr` of segs from column
      x: just past the last segment. */
  function EndColumn(x: nat, segs: seq<string>): nat
    requires |segs| >= 1
  {
    (if |segs| == 1 then x else 0) + |segs[|segs| - 1]|
  }

  /** `addstr`: overwrite from (y, x) with s, a line break going on at column
      0 of the next line.  At the cursor, the current position moves past the
      end of what was written. */
  function Addstr(v: View, y: nat, x: nat, s: string, at: Attr, atCursor: bool): (r: Step)
    requires Valid(v) && y <= |v.buf|
    ensures Valid(r.v) && |r.v.buf| >= |v.buf|
  {
    var segs := Segments(s, 0);
    var r1 := AddSegs(v, y, x, segs, at);
    if atCursor then Step(r1.v.(cury := y + |segs| - 1, curx := EndColumn(x, segs)), r1.ops)
    else r1
  }

  /** `modattr`: set the attribute of xlen characters of line y from x (to
      the end of the line when xlen is -1 and the window is no wider than
      it), clipped to the line; a no-op from the end of the line on. */
  function Modattr(v: View, at: Attr, y: nat, x: nat, xlen: int): (r: Step)
    requires Valid(v) && y < |v.buf| && xlen >= -1
    ensures Valid(r.v) && r.v.(attr := v.attr) == v
  {
    var xl0: nat := if xlen == -1 then v.ncols else xlen;
    var alen := |v.attr[y]|;
    if x >= alen then Step(v, [])
    else
      var xl := if x + xl0 > alen then alen - x else xl0;
      var s := v.buf[y][x..x + xl];
      Step(v.(attr := v.attr[y := SetRange(v.attr[y], x, x + xl, at)]), DrawSpan(v, y, x, s, at))
  }

  /** `delch`: remove the character at (y, x) and its attribute; a no-op
      from the end of the line on. */
  function Delch(v: View, y: nat, x: nat): (r: Step)
    requires Valid(v) && y < |v.buf|
    ensures Valid(r.v) && |r.v.buf| == |v.buf|
  {
    if x >= |v.buf[y]| then Step(v, [])
    else
      Step(v.(buf := v.buf[y := v.buf[y][..x] + v.buf[y][x + 1..]],
              attr := v.attr[y := v.attr[y][..x] + v.attr[y][x + 1..]]),
           match DisplayPos(v, y, x, 1)
           case Some(p) => [DelCh(p.0, p.1)]
           case None => [])
  }

  /** `clrtoeol`: cut line y at column x; a no-op from the end of the line
      on. */
  function Clrtoeol(v: View, y: nat, x: nat): (r: Step)
    requires Valid(v) && y < |v.buf|
    ensures Valid(r.v) && |r.v.buf| == |v.buf|
  {
    var slen := |v.buf[y]| - x;
    if slen <= 0 then Step(v, [])
    else
      Step(v.(buf := v.buf[y := v.buf[y][..x]], attr := v.attr[y := v.attr[y][..x]]),
           match DisplayPos(v, y, x, slen)
           case Some(p) => [ClearToEol(p.0, Max(p.1, 0))]
           case None => [])
  }

  /** `scrolly(count)`: move the window count lines down the buffer
      (negative: up), never above line 0 and never past the last line.
      Scrolling a window height or more redraws it; a shorter scroll shifts
      the window's rows and redraws only the rows it exposes.  Written with
      the clamp the source means; its own clamp and redraw range are
      `PadFindings.ScrollyForwardAsWritten`. */
  function Scrolly(v: View, count: int): (r: Step)
    requires Valid(v)
    ensures Valid(r.v)
  {
    if count < 0 then
      if v.topy == 0 then Step(v, [])
      else
        var c := Min(-count, v.topy);
        var w := v.(topy := v.topy - c);
        Step(w, ShiftOps(w, c, false))
    else if count > 0 then
      if v.topy + v.nlines >= |v.buf| then Step(v, [])
      else
        var c := if v.topy + count >= |v.buf| then |v.buf| - v.topy - 1 else count;
        var w := v.(topy := v.topy + c);
        Step(w, ShiftOps(w, c, true))
    else Step(v, [])
  }

  /** How `scrolly` brings the window w, just moved c lines (down the buffer
      when forward), up to date: redraw it all when no row survives,
      otherwise shift the surviving rows with c deletions at the top
      (insertions when moving up) and redraw the rows that shift exposed. */
  function ShiftOps(w: View, c: nat, forward: bool): seq<Op>
    requires Parallel(w)
  {
    if c >= w.nlines then Redraw(w)
    else if forward then Repeat(DeleteLine(0), c) + RedispRows(w, w.nlines - c - 1, w.nlines)
    else Repeat(InsertLine(0), c) + RedispRows(w, 0, c)
  }

  /** `scrollx(count)`: move the window count columns right (negative:
      left), never left of column 0, and redraw it. */
  function Scrollx(v: View, count: int): (r: Step)
    requires Valid(v)
    ensures Valid(r.v)
  {
    if count == 0 then Step(v, [])
    else
      var w := v.(topx := if v.topx + count < 0 then 0 else v.topx + count);
      Step(w, Redraw(w))
  }

  /** `move(y, x)`. */
  function Move(v: View, y: nat, x: nat): (w: View)
    requires y < |v.buf|
  {
    v.(cury := y, curx := x)
  }

  /** `refresh`: put the window cursor on the current position when it is
      shown, then refresh. */
  function Refresh(v: View): seq<Op>
  {
    match DisplayPos(v, v.cury, v.curx, 1)
    case Some(p) => [MoveCursor(p.0, p.1), RefreshWindow]
    case None => [RefreshWindow]
  }

  /** `getbegyx`. */
  function Getbegyx(v: View): (int, int) { (v.topy, v.topx) }

  /** `getmaxyx`. */
  function Getmaxyx(v: View): (int, int) { (v.nlines, v.ncols) }

  /** `getFirstDisplayedLine`. */
  function GetFirstDisplayedLine(v: View): int { v.topy }

  /** `getLastDisplayedLine`: may be past the end of the buffer. */
  function GetLastDisplayedLine(v: View): int { v.topy + v.nlines - 1 }

  /** `getxy`. */
  function Getxy(v: View): (int, int) { (v.cury, v.curx) }

  /** Each write of ops applied to the buffer by `_addstr`. */
  predicate LineWrites(v: View, ops: seq<Op>)
  {
    forall i :: 0 <= i < |ops| ==> ops[i].Write? && 0 <= ops[i].row < |v.buf| && ops[i].col >= 0
  }

  /** The buffer after each write of ops is applied by `_addstr`. */
  function PutLines(v: View, ops: seq<Op>): (w: View)
    requires Valid(v) && LineWrites(v, ops)
    ensures Valid(w) && |w.buf| == |v.buf|
    ensures w.(buf := v.buf, attr := v.attr) == v
    decreases |ops|
  {
    if ops == [] then v
    else
      var w := PutLine(v, ops[0].row, ops[0].col, ops[0].text, ops[0].attr);
      assert LineWrites(w, ops[1..]) by {
        assert forall i :: 0 <= i < |ops[1..]| ==> ops[1..][i] == ops[i + 1];
      }
      PutLines(w, ops[1..])
  }

  /** What writing ops with `_addstr` shows in the window; writing moves
      neither the window nor changes its size, so every write is clipped to
      the window of v. */
  function DrawSpans(v: View, ops: seq<Op>): seq<Op>
    requires LineWrites(v, ops)
    decreases |ops|
  {
    if ops == [] then []
    else
      assert LineWrites(v, ops[1..]) by {
        assert forall i :: 0 <= i < |ops[1..]| ==> ops[1..][i] == ops[i + 1];
      }
      DrawSpan(v, ops[0].row, ops[0].col, ops[0].text, ops[0].attr) + DrawSpans(v, ops[1..])
  }

  /** The writes of ops applied one after the other with `_addstr`. */
  function ApplyWrites(v: View, ops: seq<Op>): (r: Step)
    requires Valid(v) && LineWrites(v, ops)
    ensures Valid(r.v) && |r.v.buf| == |v.buf|
  {
    Step(PutLines(v, ops), DrawSpans(v, ops))
  }

  /** The well-defined case of `insstr`: at the end of the buffer the string
      is added as by `addstr`; inside line y (x before its end, no line
      break in s) the tail of the line from x is cut, s is written at x, and
      the tail is put back after s run by run with its own attributes.  A
      current position at or after x on line y moves right with the tail. */
  function Insstr(v: View, y: nat, x: nat, s: string, at: Attr, atCursor: bool): (r: Step)
    requires Valid(v) && y <= |v.buf|
    requires y < |v.buf| ==> x < |v.buf[y]| && '\n' !in s
    ensures Valid(r.v)
  {
    if y >= |v.buf| then Addstr(v, y, x, s, at, false)
    else
      var tb := v.buf[y][x..];
      var ta := v.attr[y][x..];
      var r1 := Clrtoeol(v, y, x);
      var r2 := Addstr(r1.v, y, x, s, at, false);
      var nx := |r2.v.buf[y]|;
      var runs := Runs(y, nx, tb, ta);
      RunsOnRow(y, nx, tb, ta);
      var r3 := ApplyWrites(r2.v, runs);
      var ops := r1.ops + r2.ops + r3.ops + Refresh(r3.v);
      if atCursor then Step(r3.v.(cury := y, curx := nx), ops)
      else if v.cury == y && v.curx >= x then Step(r3.v.(curx := v.curx - x + nx), ops)
      else Step(r3.v, ops)
  }
}
