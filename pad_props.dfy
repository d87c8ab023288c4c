/** What the scrolled pad promises, proved about the operations of
    `PadView`: the shape of the buffer after every edit, the rules that keep
    the current position and the top line on the same line of text, the
    round trips between inserting and deleting, the bounds of scrolling, and
    that every redraw shows exactly the visible part of the buffer. */
module PadProps {
  import opened Wrappers
  import opened Surface
  import opened Text
  import opened PadRuns
  import opened PadView

  /** Line i of lines, or the empty line past the end. */
  function LineOr<T>(lines: seq<seq<T>>, i: nat): seq<T>
  {
    if i < |lines| then lines[i] else []
  }

  /** The first step of `addstr` on segments: append a line if y is past
      the end, then overwrite line y with the first segment. */
  lemma FirstSegEffect(v: View, y: nat, x: nat, segs: seq<string>, at: Attr)
    requires Valid(v) && y <= |v.buf| && |segs| >= 1
    ensures var w := AddSeg(v, y, x, segs[0], at).v;
      w.topy == v.topy && w.topx == v.topx && w.curx == v.curx && w.curattr == v.curattr &&
      w.nlines == v.nlines && w.ncols == v.ncols &&
      (forall i :: 0 <= i < |v.buf| && i != y ==> w.buf[i] == v.buf[i] && w.attr[i] == v.attr[i]) &&
      (y < |v.buf| ==> w.cury == v.cury) &&
      w.buf[y] == Overwrite(LineOr(v.buf, y), x, segs[0], ' ') &&
      w.attr[y] == Overwrite(LineOr(v.attr, y), x, Repeat(at, |segs[0]|), v.curattr)
  {
    var v1 := if y >= |v.buf| then InsertLn(v, y, false).v else v;
    assert v1.buf == (if y < |v.buf| then v.buf else v.buf + [""]);
    assert v1.attr == (if y < |v.buf| then v.attr else v.attr + [[]]);
  }

  lemma AddSegsUnfold(v: View, y: nat, x: nat, segs: seq<string>, at: Attr)
    requires Valid(v) && y <= |v.buf| && |segs| > 1
    ensures PutSegs(v, y, x, segs, at) == PutSegs(AddSeg(v, y, x, segs[0], at).v, y + 1, 0, segs[1..], at)
  {
  }

  /** `addstr` on segments leaves the lines outside [y, y + |segs|) and the
      window alone. */
  lemma {:induction false} AddSegsFrame(v: View, y: nat, x: nat, segs: seq<string>, at: Attr)
    requires Valid(v) && y <= |v.buf| && |segs| >= 1
    ensures var w := PutSegs(v, y, x, segs, at);
      |w.buf| == Max(|v.buf|, y + |segs|) &&
      w.topy == v.topy && w.topx == v.topx && w.curx == v.curx && w.curattr == v.curattr &&
      w.nlines == v.nlines && w.ncols == v.ncols &&
      (y + |segs| <= |v.buf| ==> w.cury == v.cury) &&
      (forall i :: 0 <= i < |v.buf| && !(y <= i < y + |segs|) ==> w.buf[i] == v.buf[i] && w.attr[i] == v.attr[i])
    decreases |segs|
  {
    FirstSegEffect(v, y, x, segs, at);
    if |segs| > 1 {
      var v2 := AddSeg(v, y, x, segs[0], at).v;
      AddSegsUnfold(v, y, x, segs, at);
      AddSegsFrame(v2, y + 1, 0, segs[1..], at);
    }
  }

  /** Line i of w is line i of v (the empty line past its end) overwritten
      from column c with seg in attribute at. */
  predicate LineWritten(v: View, w: View, i: nat, c: nat, seg: string, at: Attr)
  {
    i < |w.buf| && i < |w.attr| &&
    w.buf[i] == Overwrite(LineOr(v.buf, i), c, seg, ' ') &&
    w.attr[i] == Overwrite(LineOr(v.attr, i), c, Repeat(at, |seg|), v.curattr)
  }

  /** Segment k of `addstr` on segments ends up on line y + k. */
  lemma {:induction false} AddSegsLine(v: View, y: nat, x: nat, segs: seq<string>, at: Attr, k: nat)
    requires Valid(v) && y <= |v.buf| && k < |segs|
    ensures LineWritten(v, PutSegs(v, y, x, segs, at), y + k, if k == 0 then x else 0, segs[k], at)
    decreases k, 1
  {
    if k == 0 {
      AddSegsLineFirst(v, y, x, segs, at);
    } else {
      AddSegsLineLater(v, y, x, segs, at, k);
    }
  }

  /** AddSegsLine for a segment after the first. */
  lemma {:induction false} AddSegsLineLater(v: View, y: nat, x: nat, segs: seq<string>, at: Attr, k: nat)
    requires Valid(v) && y <= |v.buf| && 0 < k < |segs|
    ensures LineWritten(v, PutSegs(v, y, x, segs, at), y + k, 0, segs[k], at)
    decreases k, 0
  {
    var v2 := AddSeg(v, y, x, segs[0], at).v;
    var rest, seg, i := segs[1..], segs[k], y + k;
    var w := PutSegs(v, y, x, segs, at);
    assert w == PutSegs(v2, y + 1, 0, rest, at) by {
      AddSegsUnfold(v, y, x, segs, at);
    }
    assert rest[k - 1] == seg;
    AddSegsLine(v2, y + 1, 0, rest, at, k - 1);
    assert LineWritten(v2, w, i, 0, seg, at);
    FirstSegLineOr(v, y, x, segs, at, i);
    LineWrittenOver(v, v2, w, i, 0, seg, at);
  }

  /** LineWritten only looks at line i and the fill attribute of v. */
  lemma LineWrittenOver(v: View, v2: View, w: View, i: nat, c: nat, seg: string, at: Attr)
    requires LineWritten(v2, w, i, c, seg, at)
    requires LineOr(v2.buf, i) == LineOr(v.buf, i) && LineOr(v2.attr, i) == LineOr(v.attr, i)
    requires v2.curattr == v.curattr
    ensures LineWritten(v, w, i, c, seg, at)
  {
  }

  /** The first segment ends up on line y. */
  lemma AddSegsLineFirst(v: View, y: nat, x: nat, segs: seq<string>, at: Attr)
    requires Valid(v) && y <= |v.buf| && |segs| >= 1
    ensures LineWritten(v, PutSegs(v, y, x, segs, at), y, x, segs[0], at)
  {
    var v2 := AddSeg(v, y, x, segs[0], at).v;
    FirstSegLine(v, y, x, segs, at);
    if |segs| > 1 {
      AddSegsUnfold(v, y, x, segs, at);
      AddSegsKeepsLine(v2, y + 1, segs[1..], at, y);
      LineWrittenKept(v, v2, PutSegs(v2, y + 1, 0, segs[1..], at), y, x, segs[0], at);
    }
  }

  /** The first step of `addstr` on segments writes the first segment on
      line y. */
  lemma FirstSegLine(v: View, y: nat, x: nat, segs: seq<string>, at: Attr)
    requires Valid(v) && y <= |v.buf| && |segs| >= 1
    ensures LineWritten(v, AddSeg(v, y, x, segs[0], at).v, y, x, segs[0], at)
  {
    FirstSegEffect(v, y, x, segs, at);
  }

  /** `addstr` on segments from line y1 keeps every line above y1. */
  lemma AddSegsKeepsLine(v: View, y1: nat, rest: seq<string>, at: Attr, i: nat)
    requires Valid(v) && y1 <= |v.buf| && |rest| >= 1 && i < y1
    ensures var w := PutSegs(v, y1, 0, rest, at);
      i < |w.buf| && w.buf[i] == v.buf[i] && w.attr[i] == v.attr[i]
  {
    AddSegsFrame(v, y1, 0, rest, at);
  }

  /** A line written in v2 and kept by w is written in w. */
  lemma LineWrittenKept(v: View, v2: View, w: View, i: nat, c: nat, seg: string, at: Attr)
    requires LineWritten(v, v2, i, c, seg, at)
    requires i < |w.buf| && i < |w.attr| && w.buf[i] == v2.buf[i] && w.attr[i] == v2.attr[i]
    ensures LineWritten(v, w, i, c, seg, at)
  {
  }

  /** The first step of `addstr` on segments leaves every line but y as it
      was, an appended line reading as the empty line. */
  lemma FirstSegLineOr(v: View, y: nat, x: nat, segs: seq<string>, at: Attr, i: nat)
    requires Valid(v) && y <= |v.buf| && |segs| >= 1 && i != y
    ensures var v2 := AddSeg(v, y, x, segs[0], at).v;
      LineOr(v2.buf, i) == LineOr(v.buf, i) && LineOr(v2.attr, i) == LineOr(v.attr, i) &&
      v2.curattr == v.curattr
  {
    FirstSegEffect(v, y, x, segs, at);
  }

  /** The lines buf and attr after segs is written over v from (y, x):
      there are enough of them, segment k overwrites line y + k (an appended
      empty line past the end) from column x for the first segment and from
      column 0 for the others, and no other line changes. */
  predicate SegsWritten(v: View, buf: seq<string>, attr: seq<seq<Attr>>, y: nat, x: nat, segs: seq<string>, at: Attr)
  {
    |buf| == |attr| == Max(|v.buf|, y + |segs|) && |v.attr| == |v.buf| &&
    (forall i :: 0 <= i < |v.buf| && !(y <= i < y + |segs|) ==> buf[i] == v.buf[i] && attr[i] == v.attr[i]) &&
    (forall k :: 0 <= k < |segs| ==>
      buf[y + k] == Overwrite(LineOr(v.buf, y + k), if k == 0 then x else 0, segs[k], ' ') &&
      attr[y + k] == Overwrite(LineOr(v.attr, y + k), if k == 0 then x else 0, Repeat(at, |segs[k]|), v.curattr))
  }

  /** `addstr`, segment by segment: the segments are written line by line
      and the window stays. */
  lemma AddSegsEffect(v: View, y: nat, x: nat, segs: seq<string>, at: Attr)
    requires Valid(v) && y <= |v.buf| && |segs| >= 1
    ensures var w := PutSegs(v, y, x, segs, at);
      SegsWritten(v, w.buf, w.attr, y, x, segs, at) &&
      w.topy == v.topy && w.topx == v.topx && w.curx == v.curx && w.curattr == v.curattr &&
      w.nlines == v.nlines && w.ncols == v.ncols &&
      (y + |segs| <= |v.buf| ==> w.cury == v.cury)
  {
    AddSegsFrame(v, y, x, segs, at);
    forall k | 0 <= k < |segs|
      ensures LineWritten(v, PutSegs(v, y, x, segs, at), y + k, if k == 0 then x else 0, segs[k], at)
    {
      AddSegsLine(v, y, x, segs, at, k);
    }
  }

  /** `addstr` (UIpartition/FlexScrollPad.py:308-387): s is cut at its line
      breaks; the pieces are written from (y, x) line by line
      (`SegsWritten`), growing the buffer as needed; at the cursor the
      current position ends just past the last piece; every other line is
      kept, and so is the window's position. */
  lemma AddstrEffect(v: View, y: nat, x: nat, s: string, at: Attr, atCursor: bool)
    requires Valid(v) && y <= |v.buf|
    ensures var segs := Segments(s, 0);
      var w := Addstr(v, y, x, s, at, atCursor).v;
      Join(segs, '\n') == s &&
      SegsWritten(v, w.buf, w.attr, y, x, segs, at) &&
      w.topy == v.topy && w.topx == v.topx &&
      (atCursor ==> w.cury == y + |segs| - 1 && w.curx == EndColumn(x, segs)) &&
      (!atCursor ==> w.curx == v.curx && (y + |segs| <= |v.buf| ==> w.cury == v.cury))
  {
    JoinSegments(s, 0);
    AddSegsEffect(v, y, x, Segments(s, 0), at);
    AddstrViaSegs(v, y, x, s, at, atCursor);
  }

  /** A string without line breaks, added not at the cursor to a line that
      exists, is a single `_addstr`: that line is overwritten from x and
      one write shows the visible part. */
  lemma AddstrInLine(v: View, y: nat, x: nat, s: string, at: Attr)
    requires Valid(v) && y < |v.buf| && '\n' !in s
    ensures Addstr(v, y, x, s, at, false) == LineAdd(v, y, x, s, at)
  {
    SegmentsNoBreak(s, 0);
    assert s[0..] == s;
  }

  /** `addstr` is `addstr` on the segments, the cursor set at the end. */
  lemma AddstrViaSegs(v: View, y: nat, x: nat, s: string, at: Attr, atCursor: bool)
    requires Valid(v) && y <= |v.buf|
    ensures var segs := Segments(s, 0);
      var r1 := PutSegs(v, y, x, segs, at);
      var w := Addstr(v, y, x, s, at, atCursor).v;
      w.buf == r1.buf && w.attr == r1.attr && w.topy == r1.topy && w.topx == r1.topx &&
      (atCursor ==> w.cury == y + |segs| - 1 && w.curx == EndColumn(x, segs)) &&
      (!atCursor ==> w.cury == r1.cury && w.curx == r1.curx)
  {
  }

  /** `insertln(y)` (UIpartition/FlexScrollPad.py:391-424): an empty line
      appears at y and the lines from y on move down one.  The top line of
      the window moves down exactly when it is below y, and the current
      position exactly when it is below y and the insert is not at the
      cursor. */
  lemma InsertLnEffect(v: View, y: nat, atCursor: bool)
    requires Valid(v) && y <= |v.buf|
    ensures var w := InsertLn(v, y, atCursor).v;
      w.buf[y] == "" && w.attr[y] == [] &&
      (forall i :: 0 <= i < |v.buf| ==>
        w.buf[if i < y then i else i + 1] == v.buf[i] && w.attr[if i < y then i else i + 1] == v.attr[i]) &&
      w.topy == (if v.topy > y then v.topy + 1 else v.topy) &&
      w.cury == (if v.cury > y && !atCursor then v.cury + 1 else v.cury) &&
      w.topx == v.topx && w.curx == v.curx
  {
    InsertAt(v.buf, y, "");
    InsertAt(v.attr, y, []);
  }

  /** After `insertln(y)` the top line of the window and (for an insert not
      at the cursor) the current position still designate the same line of
      text, unless they were on line y itself. */
  lemma InsertLnKeepsPlace(v: View, y: nat, atCursor: bool)
    requires Valid(v) && y <= |v.buf|
    ensures var w := InsertLn(v, y, atCursor).v;
      (v.topy != y && v.topy < |v.buf| ==> w.buf[w.topy] == v.buf[v.topy]) &&
      (v.cury != y && v.cury < |v.buf| && !atCursor ==> w.buf[w.cury] == v.buf[v.cury])
  {
    var w := InsertLn(v, y, atCursor).v;
    assert w.buf == v.buf[..y] + [""] + v.buf[y..];
    if v.topy != y && v.topy < |v.buf| {
      InsertAtIndex(v.buf, y, "", v.topy);
    }
    if v.cury != y && v.cury < |v.buf| && !atCursor {
      InsertAtIndex(v.buf, y, "", v.cury);
    }
  }

  lemma InsertAtIndex<T>(s: seq<T>, y: nat, e: T, i: nat)
    requires y <= |s| && i < |s|
    ensures (s[..y] + [e] + s[y..])[if i < y then i else i + 1] == s[i]
  {
  }

  /** Where the elements of s go when e is inserted at y. */
  lemma InsertAt<T>(s: seq<T>, y: nat, e: T)
    requires y <= |s|
    ensures var r := s[..y] + [e] + s[y..];
      |r| == |s| + 1 && r[y] == e && forall i :: 0 <= i < |s| ==> r[if i < y then i else i + 1] == s[i]
  {
  }

  /** `deleteln(y)` (UIpartition/FlexScrollPad.py:429-478): line y goes and
      the lines after it move up one.  The current position and the top line
      of the window keep designating the same line of text unless they were
      on line y; a top line that was on y moves to the line that follows, or
      to the one before when y was the last line, and the window never ends
      up past the end of the buffer. */
  lemma DeletelnEffect(v: View, y: nat)
    requires Valid(v) && y < |v.buf|
    ensures var w := Deleteln(v, y).v;
      w.buf == v.buf[..y] + v.buf[y + 1..] && w.attr == v.attr[..y] + v.attr[y + 1..] &&
      (w.topy == 0 || w.topy < |w.buf|) &&
      (v.topy != y ==> w.topy == (if v.topy > y then v.topy - 1 else v.topy)) &&
      (v.topy == y ==> w.topy == (if y < |w.buf| || y == 0 then y else y - 1)) &&
      (v.cury != y && v.cury < |v.buf| ==>
        w.cury == (if v.cury > y then v.cury - 1 else v.cury) && w.buf[w.cury] == v.buf[v.cury]) &&
      w.topx == v.topx && w.curx == v.curx
  {
  }

  /** Deleting the line just inserted gives back the buffer, the window
      position and, unless the buffer was empty with the current position
      below it, the current position. */
  lemma InsertDeleteRoundTrip(v: View, y: nat)
    requires Valid(v) && y <= |v.buf|
    ensures var w := InsertLn(v, y, false).v;
      y < |w.buf| &&
      var u := Deleteln(w, y).v;
      u.buf == v.buf && u.attr == v.attr && u.topy == v.topy && u.topx == v.topx &&
      u.curx == v.curx && (|v.buf| > 0 || v.cury == 0 ==> u.cury == v.cury)
  {
    var w := InsertLn(v, y, false).v;
    assert w.buf[..y] + w.buf[y + 1..] == v.buf;
    assert w.attr[..y] + w.attr[y + 1..] == v.attr;
  }

  /** `modattr` (UIpartition/FlexScrollPad.py:254-299): only the attributes
      of line y in [x, x + xlen) change (xlen -1 standing for the window
      width), to at; the text, the other lines, the cursor and the window
      stay as they were.  From the end of the line on nothing changes. */
  lemma ModattrEffect(v: View, at: Attr, y: nat, x: nat, xlen: int)
    requires Valid(v) && y < |v.buf| && xlen >= -1
    ensures var w := Modattr(v, at, y, x, xlen).v;
      var xl := if xlen == -1 then v.ncols else xlen;
      w.buf == v.buf && |w.attr| == |v.attr| &&
      (forall i :: 0 <= i < |v.attr| && i != y ==> w.attr[i] == v.attr[i]) &&
      |w.attr[y]| == |v.attr[y]| &&
      (forall j :: 0 <= j < |v.attr[y]| ==> w.attr[y][j] == (if x <= j < x + xl then at else v.attr[y][j])) &&
      w.cury == v.cury && w.curx == v.curx && w.topy == v.topy && w.topx == v.topx
  {
  }

  /** `delch` (UIpartition/FlexScrollPad.py:638-653): the character at x and
      its attribute go and the rest of the line closes up; from the end of
      the line on nothing changes. */
  lemma DelchEffect(v: View, y: nat, x: nat)
    requires Valid(v) && y < |v.buf|
    ensures var w := Delch(v, y, x).v;
      var b := v.buf[y];
      var a := v.attr[y];
      (x >= |b| ==> w == v) &&
      (x < |b| ==>
        |w.buf[y]| == |b| - 1 &&
        (forall j :: 0 <= j < |b| - 1 ==> w.buf[y][j] == (if j < x then b[j] else b[j + 1])) &&
        (forall j :: 0 <= j < |b| - 1 ==> w.attr[y][j] == (if j < x then a[j] else a[j + 1]))) &&
      (forall i :: 0 <= i < |v.buf| && i != y ==> w.buf[i] == v.buf[i] && w.attr[i] == v.attr[i]) &&
      w.cury == v.cury && w.curx == v.curx && w.topy == v.topy && w.topx == v.topx
  {
  }

  /** `clrtoeol` (UIpartition/FlexScrollPad.py:657-680): line y and its
      attributes are cut to their first x entries; nothing else changes. */
  lemma ClrtoeolEffect(v: View, y: nat, x: nat)
    requires Valid(v) && y < |v.buf|
    ensures var w := Clrtoeol(v, y, x).v;
      w.buf == v.buf[y := Take(v.buf[y], x)] && w.attr == v.attr[y := Take(v.attr[y], x)] &&
      w.cury == v.cury && w.curx == v.curx && w.topy == v.topy && w.topx == v.topx
  {
  }

  /** `clrtoeol` on the window: when some of the cut-off characters are
      shown, the window row is cleared from the window column of x, or from
      column 0 when x is left of the window, and that column is inside the
      window when the window has a column at all; otherwise the window is
      not touched. */
  lemma ClrtoeolOnWindow(v: View, y: nat, x: nat)
    requires Valid(v) && y < |v.buf|
    ensures var ops := Clrtoeol(v, y, x).ops;
      (ops != [] <==> x < |v.buf[y]| && v.topy <= y < v.topy + v.nlines &&
                      v.topx < |v.buf[y]| && x < v.topx + v.ncols) &&
      (ops != [] ==> ops == [ClearToEol(y - v.topy, Max(x - v.topx, 0))] &&
                      (v.ncols > 0 ==> Max(x - v.topx, 0) < v.ncols))
  {
  }

  /** Writing runs at the end of line y, as `insstr` puts back the tail it
      cut, appends their text and attributes to the line. */
  lemma {:induction false} ApplyRunsAppend(v: View, y: nat, col: nat, t: string, a: seq<Attr>)
    requires Valid(v) && y < |v.buf| && |t| == |a| && col == |v.buf[y]|
    ensures LineWrites(v, Runs(y, col, t, a))
    ensures PutLines(v, Runs(y, col, t, a)) ==
      v.(buf := v.buf[y := v.buf[y] + t], attr := v.attr[y := v.attr[y] + a])
    decreases |a|
  {
    RunsOnRow(y, col, t, a);
    if a == [] {
      assert v.buf[y] + t == v.buf[y] && v.attr[y] + a == v.attr[y];
      assert v.buf[y := v.buf[y]] == v.buf && v.attr[y := v.attr[y]] == v.attr;
    } else {
      var k := RunLength(a);
      var w := PutLine(v, y, col, t[..k], a[0]);
      ApplyRunsHead(v, y, col, t, a);
      ApplyRunsAppend(w, y, col + k, t[k..], a[k..]);
      ApplyRunsRejoin(v, w, y, t, a, k);
    }
  }

  /** The first run of ApplyRunsAppend: it appends t[..k] and its
      attributes to line y, and the rest are applied after it. */
  lemma ApplyRunsHead(v: View, y: nat, col: nat, t: string, a: seq<Attr>)
    requires Valid(v) && y < |v.buf| && |t| == |a| && col == |v.buf[y]| && a != []
    ensures var k := RunLength(a);
      var w := PutLine(v, y, col, t[..k], a[0]);
      w == v.(buf := v.buf[y := v.buf[y] + t[..k]], attr := v.attr[y := v.attr[y] + a[..k]]) &&
      |w.buf[y]| == col + k &&
      LineWrites(w, Runs(y, col + k, t[k..], a[k..])) &&
      LineWrites(v, Runs(y, col, t, a)) &&
      PutLines(v, Runs(y, col, t, a)) == PutLines(w, Runs(y, col + k, t[k..], a[k..]))
  {
    var k := RunLength(a);
    var t1, t2, a1, a2 := t[..k], t[k..], a[..k], a[k..];
    var op := Write(y, col, t1, a[0]);
    var rest := Runs(y, col + k, t2, a2);
    assert Runs(y, col, t, a) == [op] + rest;
    PutLineRun(v, y, t, a);
    RunsOnRow(y, col + k, t2, a2);
    PutLinesCons(v, op, rest);
  }

  /** Writing the leading run of t at the end of line y appends it with its
      attributes. */
  lemma PutLineRun(v: View, y: nat, t: string, a: seq<Attr>)
    requires Valid(v) && y < |v.buf| && |t| == |a| && a != []
    ensures var k := RunLength(a);
      PutLine(v, y, |v.buf[y]|, t[..k], a[0]) ==
        v.(buf := v.buf[y := v.buf[y] + t[..k]], attr := v.attr[y := v.attr[y] + a[..k]])
  {
    var k := RunLength(a);
    PutLineAppend(v, y, t[..k], a[0]);
    RunLengthRun(a);
    LeadingRun(a, k);
    assert a[..k] == Repeat(a[0], k);
  }

  /** Appending t[..k] and then t[k..] to line y appends t. */
  lemma ApplyRunsRejoin(v: View, w: View, y: nat, t: string, a: seq<Attr>, k: nat)
    requires y < |v.buf| && y < |v.attr| && k <= |t| && k <= |a|
    requires w == v.(buf := v.buf[y := v.buf[y] + t[..k]], attr := v.attr[y := v.attr[y] + a[..k]])
    ensures w.(buf := w.buf[y := w.buf[y] + t[k..]], attr := w.attr[y := w.attr[y] + a[k..]]) ==
      v.(buf := v.buf[y := v.buf[y] + t], attr := v.attr[y := v.attr[y] + a])
  {
    RejoinLine(v.buf, y, t, k);
    RejoinLine(v.attr, y, a, k);
  }

  /** Writing at the end of a line appends. */
  lemma PutLineAppend(v: View, y: nat, t: string, at: Attr)
    requires Valid(v) && y < |v.buf|
    ensures PutLine(v, y, |v.buf[y]|, t, at) ==
      v.(buf := v.buf[y := v.buf[y] + t], attr := v.attr[y := v.attr[y] + Repeat(at, |t|)])
  {
  }

  /** Whether ops are writes to lines of v depends only on how many lines
      v has. */
  lemma LineWritesLength(v: View, m: View, ops: seq<Op>)
    requires |m.buf| == |v.buf| && LineWrites(v, ops)
    ensures LineWrites(m, ops)
  {
  }

  /** What a write shows depends only on the window, not on the lines. */
  lemma DrawSpanWindow(v: View, m: View, y: int, x: nat, s: string, at: Attr)
    requires m.(buf := v.buf, attr := v.attr) == v
    ensures DrawSpan(m, y, x, s, at) == DrawSpan(v, y, x, s, at)
  {
    assert DisplayPos(m, y, x, |s|) == DisplayPos(v, y, x, |s|);
  }

  /** The first write of [w] + rest is shown first. */
  lemma DrawSpansCons(v: View, w: Op, rest: seq<Op>)
    requires w.Write? && w.col >= 0 && LineWrites(v, [w] + rest)
    ensures LineWrites(v, rest)
    ensures DrawSpans(v, [w] + rest) == DrawSpan(v, w.row, w.col, w.text, w.attr) + DrawSpans(v, rest)
  {
    assert ([w] + rest)[0] == w && ([w] + rest)[1..] == rest;
    assert forall i :: 0 <= i < |rest| ==> rest[i] == ([w] + rest)[i + 1];
  }

  lemma PutLinesCons(v: View, op: Op, rest: seq<Op>)
    requires Valid(v) && op.Write? && 0 <= op.row < |v.buf| && op.col >= 0 && LineWrites(v, rest)
    ensures LineWrites(v, [op] + rest)
    ensures LineWrites(PutLine(v, op.row, op.col, op.text, op.attr), rest)
    ensures PutLines(v, [op] + rest) == PutLines(PutLine(v, op.row, op.col, op.text, op.attr), rest)
  {
    assert ([op] + rest)[0] == op && ([op] + rest)[1..] == rest;
    assert forall i :: 0 <= i < |rest| ==> rest[i] == ([op] + rest)[i + 1];
  }

  /** Appending the pieces t[..k] and t[k..] to line y appends t. */
  lemma RejoinLine<T>(lines: seq<seq<T>>, y: nat, t: seq<T>, k: nat)
    requires y < |lines| && k <= |t|
    ensures lines[y := lines[y] + t[..k]][y := lines[y] + t[..k] + t[k..]] == lines[y := lines[y] + t]
  {
    assert t[..k] + t[k..] == t;
    assert lines[y] + t[..k] + t[k..] == lines[y] + t;
  }

  /** Cutting a line with `clrtoeol` and writing the cut tail back run by
      run restores the line and its attributes exactly. */
  lemma ClrtoeolRestore(v: View, y: nat, x: nat)
    requires Valid(v) && y < |v.buf| && x < |v.buf[y]|
    ensures var w := Clrtoeol(v, y, x).v;
      LineWrites(w, Runs(y, x, v.buf[y][x..], v.attr[y][x..])) &&
      PutLines(w, Runs(y, x, v.buf[y][x..], v.attr[y][x..])) == v
  {
    var w := Clrtoeol(v, y, x).v;
    assert w == v.(buf := v.buf[y := v.buf[y][..x]], attr := v.attr[y := v.attr[y][..x]]);
    ApplyRunsAppend(w, y, |w.buf[y]|, v.buf[y][x..], v.attr[y][x..]);
    CutRejoin(v.buf, y, x);
    CutRejoin(v.attr, y, x);
  }

  /** Cutting line y at x and appending the cut tail gives the lines back. */
  lemma CutRejoin<T>(lines: seq<seq<T>>, y: nat, x: nat)
    requires y < |lines| && x <= |lines[y]|
    ensures lines[y := lines[y][..x]][y := lines[y][..x] + lines[y][x..]] == lines
  {
    assert lines[y][..x] + lines[y][x..] == lines[y];
  }

  /** The first three stages of `insstr` inside a line: the line is cut at x
      and s is added at the new end. */
  lemma InsstrHead(v: View, y: nat, x: nat, s: string, at: Attr)
    requires Valid(v) && y < |v.buf| && x < |v.buf[y]| && '\n' !in s
    ensures var w := Addstr(Clrtoeol(v, y, x).v, y, x, s, at, false).v;
      w == v.(buf := v.buf[y := v.buf[y][..x] + s], attr := v.attr[y := v.attr[y][..x] + Repeat(at, |s|)])
  {
    var u := Clrtoeol(v, y, x).v;
    SegmentsNoBreak(s, 0);
    assert s[0..] == s;
    AddstrEffect(u, y, x, s, at, false);
    var w := Addstr(u, y, x, s, at, false).v;
    assert w.buf == v.buf[y := v.buf[y][..x] + s];
    assert w.attr == v.attr[y := v.attr[y][..x] + Repeat(at, |s|)];
  }

  /** `insstr` inside a line without a line break
      (UIpartition/FlexScrollPad.py:580-621): the line becomes
      `old[0:x] + s + old[x:]` and its attributes
      `old_a[0:x] + [at] * len(s) + old_a[x:]`, so the tail keeps its own
      attributes; no other line and not the window change. */
  lemma InsstrLine(v: View, y: nat, x: nat, s: string, at: Attr, atCursor: bool)
    requires Valid(v) && y < |v.buf| && x < |v.buf[y]| && '\n' !in s
    ensures var w := Insstr(v, y, x, s, at, atCursor).v;
      w.buf == v.buf[y := v.buf[y][..x] + s + v.buf[y][x..]] &&
      w.attr == v.attr[y := v.attr[y][..x] + Repeat(at, |s|) + v.attr[y][x..]] &&
      w.topy == v.topy && w.topx == v.topx
  {
    InsstrState(v, y, x, s, at, atCursor);
  }

  /** The whole state after `insstr` inside a line. */
  lemma InsstrState(v: View, y: nat, x: nat, s: string, at: Attr, atCursor: bool)
    requires Valid(v) && y < |v.buf| && x < |v.buf[y]| && '\n' !in s
    ensures var nv := v.(buf := v.buf[y := v.buf[y][..x] + s + v.buf[y][x..]],
                         attr := v.attr[y := v.attr[y][..x] + Repeat(at, |s|) + v.attr[y][x..]]);
      Insstr(v, y, x, s, at, atCursor).v ==
        if atCursor then nv.(cury := y, curx := x + |s|)
        else if v.cury == y && v.curx >= x then nv.(curx := v.curx + |s|)
        else nv
  {
    InsstrTail(v, y, x, s, at);
    var u := Addstr(Clrtoeol(v, y, x).v, y, x, s, at, false).v;
    var nx := |u.buf[y]|;
    var runs := Runs(y, nx, v.buf[y][x..], v.attr[y][x..]);
    var w3 := PutLines(u, runs);
    assert ApplyWrites(u, runs).v == w3;
  }

  /** The whole buffer after `insstr` inside a line, before the cursor is
      placed. */
  lemma InsstrTail(v: View, y: nat, x: nat, s: string, at: Attr)
    requires Valid(v) && y < |v.buf| && x < |v.buf[y]| && '\n' !in s
    ensures var u := Addstr(Clrtoeol(v, y, x).v, y, x, s, at, false).v;
      var nx := |u.buf[y]|;
      nx == x + |s| &&
      LineWrites(u, Runs(y, nx, v.buf[y][x..], v.attr[y][x..])) &&
      PutLines(u, Runs(y, nx, v.buf[y][x..], v.attr[y][x..])) ==
        v.(buf := v.buf[y := v.buf[y][..x] + s + v.buf[y][x..]],
           attr := v.attr[y := v.attr[y][..x] + Repeat(at, |s|) + v.attr[y][x..]])
  {
    InsstrHead(v, y, x, s, at);
    var u := Addstr(Clrtoeol(v, y, x).v, y, x, s, at, false).v;
    ApplyRunsAppend(u, y, |u.buf[y]|, v.buf[y][x..], v.attr[y][x..]);
    assert u.buf[y := u.buf[y] + v.buf[y][x..]] == v.buf[y := v.buf[y][..x] + s + v.buf[y][x..]];
    assert u.attr[y := u.attr[y] + v.attr[y][x..]] == v.attr[y := v.attr[y][..x] + Repeat(at, |s|) + v.attr[y][x..]];
  }

  /** Where `insstr` inside a line leaves the current position: at the
      cursor, just past the inserted string; otherwise a position on line y
      at or after x moves right with the character it was on, and any other
      position stays. */
  lemma InsstrCursor(v: View, y: nat, x: nat, s: string, at: Attr, atCursor: bool)
    requires Valid(v) && y < |v.buf| && x < |v.buf[y]| && '\n' !in s
    ensures var w := Insstr(v, y, x, s, at, atCursor).v;
      (atCursor ==> w.cury == y && w.curx == x + |s|) &&
      (!atCursor && v.cury == y && x <= v.curx < |v.buf[y]| ==>
        w.cury == y && w.curx < |w.buf[y]| && w.buf[y][w.curx] == v.buf[y][v.curx]) &&
      (!atCursor && !(v.cury == y && v.curx >= x) ==> w.cury == v.cury && w.curx == v.curx)
  {
    InsstrState(v, y, x, s, at, atCursor);
  }

  /** Deleting the character just inserted with `insstr` gives back the
      line and its attributes. */
  lemma DelchInsstrRoundTrip(v: View, y: nat, x: nat, c: char, at: Attr)
    requires Valid(v) && y < |v.buf| && x < |v.buf[y]| && c != '\n'
    ensures var w := Insstr(v, y, x, [c], at, false).v;
      y < |w.buf| && Delch(w, y, x).v.buf == v.buf && Delch(w, y, x).v.attr == v.attr
  {
    InsstrLine(v, y, x, [c], at, false);
    assert Repeat(at, 1) == [at];
    DelchInserted(v, y, x, c, at, Insstr(v, y, x, [c], at, false).v);
  }

  lemma DelchInserted(v: View, y: nat, x: nat, c: char, at: Attr, w: View)
    requires Valid(v) && y < |v.buf| && x < |v.buf[y]|
    requires w.buf == v.buf[y := v.buf[y][..x] + [c] + v.buf[y][x..]]
    requires w.attr == v.attr[y := v.attr[y][..x] + [at] + v.attr[y][x..]]
    ensures Valid(w) ==> Delch(w, y, x).v.buf == v.buf && Delch(w, y, x).v.attr == v.attr
  {
    var b := v.buf[y];
    var a := v.attr[y];
    assert (b[..x] + [c] + b[x..])[..x] + (b[..x] + [c] + b[x..])[x + 1..] == b;
    assert (a[..x] + [at] + a[x..])[..x] + (a[..x] + [at] + a[x..])[x + 1..] == a;
    assert v.buf[y := b] == v.buf && v.attr[y := a] == v.attr;
  }

  /** A row's redraw depends only on the lines and the window's place. */
  lemma RedispLineSame(v: View, w: View, ywin: nat)
    requires Parallel(v) && v.topy + ywin < |v.buf|
    requires w.buf == v.buf && w.attr == v.attr && w.topy == v.topy && w.topx == v.topx && w.ncols == v.ncols
    ensures Parallel(w) && RedispLine(w, ywin) == RedispLine(v, ywin)
  {
  }

  /** `_redispLine` (UIpartition/FlexScrollPad.py:142-163): the writes are
      on row ywin inside the window, their texts in order are exactly the
      visible part `buf[topy + ywin][topx:topx + ncols]` and they carry
      exactly its attributes, one write per maximal run (`RunsMaximal`). */
  lemma RedispLineShows(v: View, ywin: nat)
    requires Parallel(v) && v.topy + ywin < |v.buf|
    ensures var ops := RedispLine(v, ywin);
      var i := v.topy + ywin;
      AllWrites(ops) &&
      Texts(ops) == Slice(v.buf[i], v.topx, v.topx + v.ncols) &&
      CellAttrs(ops) == Slice(v.attr[i], v.topx, v.topx + v.ncols) &&
      forall k :: 0 <= k < |ops| ==>
        ops[k].row == ywin && 0 <= ops[k].col && ops[k].col + |ops[k].text| <= v.ncols
  {
    var i := v.topy + ywin;
    var b := Slice(v.buf[i], v.topx, v.topx + v.ncols);
    var a := Slice(v.attr[i], v.topx, v.topx + v.ncols);
    var ops := RedispLine(v, ywin);
    assert ops == Runs(ywin, 0, b, a);
    assert |b| <= v.ncols;
    RunsCover(ywin, 0, b, a);
    RunsOnRow(ywin, 0, b, a);
    RunsWithin(ywin, 0, b, a);
    assert AllWrites(ops) && Texts(ops) == b && CellAttrs(ops) == a;
    assert forall k :: 0 <= k < |ops| ==> ops[k].row == ywin && 0 <= ops[k].col && ops[k].col + |ops[k].text| <= v.ncols;
  }

  /** A write that lands on a window row showing a buffer line, inside the
      window. */
  predicate ShownWrite(v: View, op: Op)
  {
    op.Write? && 0 <= op.row < v.nlines && v.topy + op.row < |v.buf| &&
    0 <= op.col && op.col + |op.text| <= v.ncols
  }

  /** The row redraws only write rows in [lo, hi) that show buffer lines,
      inside the window. */
  lemma {:induction false} RedispRowsShown(v: View, lo: nat, hi: int)
    requires Parallel(v) && hi <= v.nlines
    ensures forall k :: 0 <= k < |RedispRows(v, lo, hi)| ==>
      ShownWrite(v, RedispRows(v, lo, hi)[k]) && lo <= RedispRows(v, lo, hi)[k].row < hi
    decreases hi - lo
  {
    if !(lo >= hi || v.topy + lo >= |v.buf|) {
      RedispLineShows(v, lo);
      RedispRowsShown(v, lo + 1, hi);
      var l := RedispLine(v, lo);
      var r := RedispRows(v, lo + 1, hi);
      assert RedispRows(v, lo, hi) == l + r;
      forall k | 0 <= k < |l + r|
        ensures ShownWrite(v, (l + r)[k]) && lo <= (l + r)[k].row < hi
      {
        if k < |l| { assert (l + r)[k] == l[k]; } else { assert (l + r)[k] == r[k - |l|]; }
      }
    }
  }

  /** `scrolly(count)` (UIpartition/FlexScrollPad.py:482-532): the top line
      moves back by count but not above line 0, is kept at line 0 and when
      the window already reaches the end, and otherwise moves forward by
      count but not past the last line; the buffer and the current position
      do not change. */
  lemma ScrollyEffect(v: View, count: int)
    requires Valid(v)
    ensures var w := Scrolly(v, count).v;
      w.buf == v.buf && w.attr == v.attr && w.cury == v.cury && w.curx == v.curx && w.topx == v.topx &&
      (w.topy == 0 || w.topy < |w.buf|) &&
      (count < 0 ==> w.topy == v.topy - Min(-count, v.topy)) &&
      (count > 0 && v.topy + v.nlines >= |v.buf| ==> w.topy == v.topy) &&
      (count > 0 && v.topy + v.nlines < |v.buf| ==> w.topy == Min(v.topy + count, |v.buf| - 1)) &&
      (count == 0 ==> w.topy == v.topy)
  {
  }

  /** A `scrolly` that does not move the window issues nothing (for a
      window at least one line high). */
  lemma ScrollyStill(v: View, count: int)
    requires Valid(v) && v.nlines > 0
    ensures var r := Scrolly(v, count); r.v.topy == v.topy ==> r.ops == []
  {
  }

  /** The redraw policy of `scrolly` backward: by m = min(-count, topy)
      lines; a window height or more is a full redraw, less is m line
      insertions at the top row followed by writes inside the window to the
      m rows it exposed, all of which show buffer lines. */
  lemma ScrollyBackPolicy(v: View, count: int)
    requires Valid(v) && count < 0 && v.topy > 0
    ensures var r := Scrolly(v, count);
      var m := Min(-count, v.topy);
      r.v.topy == v.topy - m &&
      (m >= v.nlines ==> r.ops == Redraw(r.v)) &&
      (m < v.nlines ==>
        |r.ops| >= m && r.ops[..m] == Repeat(InsertLine(0), m) &&
        forall k :: m <= k < |r.ops| ==> ShownWrite(r.v, r.ops[k]) && r.ops[k].row < m)
  {
    var r := Scrolly(v, count);
    var m := Min(-count, v.topy);
    if m < v.nlines {
      var rows := RedispRows(r.v, 0, m);
      RedispRowsShown(r.v, 0, m);
      assert r.ops == Repeat(InsertLine(0), m) + rows;
      assert r.ops[..m] == Repeat(InsertLine(0), m);
      forall k | m <= k < |r.ops| ensures ShownWrite(r.v, r.ops[k]) && r.ops[k].row < m {
        assert r.ops[k] == rows[k - m];
      }
    }
  }

  /** The redraw policy of `scrolly` forward, when the window does not yet
      reach the end: by m = count, or up to the last line; a window height or
      more is a full redraw, less is m line deletions at the top row followed
      by writes inside the window to the m + 1 bottom rows only, and only to
      rows that show buffer lines. */
  lemma ScrollyForwardPolicy(v: View, count: int)
    requires Valid(v) && count > 0 && v.topy + v.nlines < |v.buf|
    ensures var r := Scrolly(v, count);
      var m := Min(count, |v.buf| - v.topy - 1);
      r.v.topy == v.topy + m &&
      (m >= v.nlines ==> r.ops == Redraw(r.v)) &&
      (m < v.nlines ==>
        |r.ops| >= m && r.ops[..m] == Repeat(DeleteLine(0), m) &&
        forall k :: m <= k < |r.ops| ==> ShownWrite(r.v, r.ops[k]) && r.ops[k].row >= v.nlines - m - 1)
  {
    var r := Scrolly(v, count);
    var m := Min(count, |v.buf| - v.topy - 1);
    if m < v.nlines {
      var rows := RedispRows(r.v, v.nlines - m - 1, v.nlines);
      RedispRowsShown(r.v, v.nlines - m - 1, v.nlines);
      assert r.ops == Repeat(DeleteLine(0), m) + rows;
      assert r.ops[..m] == Repeat(DeleteLine(0), m);
      forall k | m <= k < |r.ops| ensures ShownWrite(r.v, r.ops[k]) && r.ops[k].row >= v.nlines - m - 1 {
        assert r.ops[k] == rows[k - m];
      }
    }
  }

  /** A full redraw clears the window and then only writes inside it, to
      rows that show buffer lines. */
  lemma RedrawShown(v: View)
    requires Parallel(v)
    ensures var ops := Redraw(v);
      ops[0] == ClearWindow && forall k :: 1 <= k < |ops| ==> ShownWrite(v, ops[k])
  {
    RedispRowsShown(v, 0, v.nlines);
    var ops := Redraw(v);
    forall k | 1 <= k < |ops| ensures ShownWrite(v, ops[k]) {
      assert ops[k] == RedispRows(v, 0, v.nlines)[k - 1];
    }
  }

  /** `scrollx(count)` (UIpartition/FlexScrollPad.py:537-546): the window
      moves count columns, not left of column 0, and is redrawn; the
      buffer, the current position and the top line do not change. */
  lemma ScrollxEffect(v: View, count: int)
    requires Valid(v)
    ensures var r := Scrollx(v, count);
      r.v == v.(topx := Max(0, v.topx + count)) &&
      (count != 0 ==> r.ops == Redraw(r.v)) && (count == 0 ==> r.ops == [])
  {
  }

  /** Scrolling sideways and back returns to the same window, unless the
      first scroll was stopped at column 0. */
  lemma ScrollxRoundTrip(v: View, count: int)
    requires Valid(v) && v.topx + count >= 0
    ensures Scrollx(Scrollx(v, count).v, -count).v == v
  {
  }

  /** The getters: line y is on the window exactly between
      `getFirstDisplayedLine` and `getLastDisplayedLine`
      (UIpartition/FlexScrollPad.py:100-105, 549-566). */
  lemma DisplayedLines(v: View, y: int)
    ensures DisplayPosY(v, y) != -1 <==> GetFirstDisplayedLine(v) <= y <= GetLastDisplayedLine(v)
    ensures Getbegyx(v) == (v.topy, v.topx) && Getmaxyx(v) == (v.nlines, v.ncols)
  {
  }

  /** `move` then `getxy` (UIpartition/FlexScrollPad.py:565-577). */
  lemma MoveGetxy(v: View, y: nat, x: nat)
    requires y < |v.buf|
    ensures Getxy(Move(v, y, x)) == (y, x) && Move(v, y, x).buf == v.buf
    ensures Valid(v) ==> Valid(Move(v, y, x))
  {
  }

  /** `refresh` (UIpartition/FlexScrollPad.py:176-182): when the current
      position is on the window the window cursor goes there, inside the
      window; then the window is refreshed. */
  lemma RefreshCursor(v: View)
    ensures var ops := Refresh(v);
      ops[|ops| - 1] == RefreshWindow &&
      (|ops| == 2 <==> v.topy <= v.cury < v.topy + v.nlines && v.topx <= v.curx < v.topx + v.ncols) &&
      (|ops| == 2 ==>
        ops[0] == MoveCursor(v.cury - v.topy, v.curx - v.topx) &&
        0 <= ops[0].row < v.nlines && 0 <= ops[0].col < v.ncols)
  {
  }

  /** `delch` on the window: the character is deleted at its own window
      position, which is inside the window, exactly when it is shown. */
  lemma DelchOnWindow(v: View, y: nat, x: nat)
    requires Valid(v) && y < |v.buf| && x < |v.buf[y]|
    ensures var ops := Delch(v, y, x).ops;
      (ops != [] <==> v.topy <= y < v.topy + v.nlines && v.topx <= x < v.topx + v.ncols) &&
      (ops != [] ==> ops == [DelCh(y - v.topy, x - v.topx)] && 0 <= x - v.topx < v.ncols)
  {
  }
}
