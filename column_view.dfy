/** The field layout of `FlexScrollColumn` as values.  Every line of the
    pad is cut into fields: per line, the list `colsizes` of signed widths
    (negative: that width, not selectable; 0: the rest of the window line),
    the list `cols` of field texts and the list `objs` of their owners.  The
    module gives the three lists as a `Table`, the geometry of a field on
    the window line, the changes the operations make to the lists, and what
    is proved about them. */
module ColumnView {
  import opened Wrappers
  import opened Surface
  import opened Text
  import PadView
  import PadProps

  /** The directions of `highlightColumn`. */
  const LEFT: int := -1
  const RIGHT: int := 1

  /** An owner stored with a field; `Null` is Python's None. */
  datatype Obj = Null | Ref(id: nat)

  /** The three parallel lists, one entry per line. */
  datatype Table = Table(colsizes: seq<seq<int>>, cols: seq<seq<string>>, objs: seq<seq<Obj>>)

  /** What the operations raise: `FlexScrollColumnErr` with the operation's
      name, the position and the last valid index, or Python's IndexError
      where the source indexes past the end of a list. */
  datatype ColErr =
    | LineRange(name: string, line: int, last: int)
    | ColRange(name: string, line: int, col: int, last: int)
    | NoColumn   // "Unable to find column to highlight"
    | NotFound   // "Could not find object in list"
    | IndexError

  /** The lists have one entry per line, and on each line one field text
      and one owner per width. */
  predicate Shaped(t: Table)
  {
    Rows(t) &&
    forall i :: 0 <= i < |t.colsizes| ==> |t.cols[i]| == |t.colsizes[i]| && |t.objs[i]| == |t.colsizes[i]|
  }

  /** One entry per line in each list. */
  predicate Rows(t: Table)
  {
    |t.cols| == |t.colsizes| && |t.objs| == |t.colsizes|
  }

  /** The empty table of `__init__`. */
  function Empty(): (t: Table)
    ensures Shaped(t) && |t.cols| == 0
  {
    Table([], [], [])
  }

  function Abs(n: int): nat
  {
    if n < 0 then -n else n
  }

  // ---------------------------------------------------------------------
  // Geometry

  /** The offset of field col on its line: the widths of the fields before
      it, added up. */
  function Offset(sizes: seq<int>, col: nat): nat
    requires col <= |sizes|
  {
    if col == 0 then 0 else Offset(sizes, col - 1) + Abs(sizes[col - 1])
  }

  /** The width `_showcol` gives field col: its declared width, or for
      width 0 the rest of the window line, which is negative once the
      offset is past the window. */
  function Width(sizes: seq<int>, col: nat, ncols: nat): int
    requires col < |sizes|
  {
    if sizes[col] < 0 then -sizes[col]
    else if sizes[col] == 0 then ncols - Offset(sizes, col)
    else sizes[col]
  }

  /** Python's end index of `s[0:e]` for a list of length n. */
  function SliceEnd(n: nat, e: int): (k: nat)
    ensures k <= n
  {
    if e >= 0 then Min(e, n) else Max(n + e, 0)
  }

  /** The text `_showcol` writes for s in a field of the given size: padded
      with spaces or cut to it (for a negative size, Python's `s[0:size]`
      drops characters from the end). */
  function Fit(s: string, size: int): string
  {
    if |s| < size then s + FormatSpace(size - |s|)
    else if |s| > size then s[..SliceEnd(|s|, size)]
    else s
  }

  /** The text `setColumn` stores: right-justified to the field's width
      when asked and shorter than it. */
  function Justified(s: string, colsize: nat, rjust: bool): string
  {
    if rjust && |s| < colsize then FormatSpace(colsize - |s|) + s else s
  }

  // ---------------------------------------------------------------------
  // The pad writes

  /** `_showcol(line, col, at)` on the pad v: the field's text fitted to its
      width, written at its offset on the pad line. */
  function ShowCol(v: PadView.View, ncols: nat, sizes: seq<int>, fields: seq<string>, line: nat, col: nat, at: Attr): (r: PadView.Step)
    requires PadView.Valid(v) && line < |v.buf| && col < |sizes| && |fields| == |sizes|
    ensures PadView.Valid(r.v) && |r.v.buf| >= |v.buf|
  {
    PadView.Addstr(v, line, Offset(sizes, col), Fit(fields[col], Width(sizes, col, ncols)), at, false)
  }

  /** A field text without line breaks is drawn on its own pad line only:
      the line is overwritten from the field's offset with the text fitted
      to the field's width, every other line and the window's position stay,
      and the one write shows the visible part of the fitted text. */
  lemma ShowColEffect(v: PadView.View, ncols: nat, sizes: seq<int>, fields: seq<string>, line: nat, col: nat, at: Attr)
    requires PadView.Valid(v) && line < |v.buf| && col < |sizes| && |fields| == |sizes|
    requires '\n' !in fields[col]
    ensures var f := Fit(fields[col], Width(sizes, col, ncols));
      var off := Offset(sizes, col);
      var r := ShowCol(v, ncols, sizes, fields, line, col, at);
      r.v == v.(buf := v.buf[line := PadView.Overwrite(v.buf[line], off, f, ' ')],
                attr := v.attr[line := PadView.Overwrite(v.attr[line], off, Repeat(at, |f|), v.curattr)]) &&
      r.ops == PadView.DrawSpan(v, line, off, f, at)
  {
    var f := Fit(fields[col], Width(sizes, col, ncols));
    FitNoBreak(fields[col], Width(sizes, col, ncols));
    PadProps.AddstrInLine(v, line, Offset(sizes, col), f, at);
  }

  /** Fitting a text to a width adds no line break. */
  lemma FitNoBreak(s: string, size: int)
    requires '\n' !in s
    ensures '\n' !in Fit(s, size)
  {
    if |s| < size {
      var f := Fit(s, size);
      assert f == s + FormatSpace(size - |s|);
      forall i | 0 <= i < |f|
        ensures f[i] != '\n'
      {
        if i >= |s| {
          assert f[i] == FormatSpace(size - |s|)[i - |s|];
        }
      }
    }
  }

  /** `_showcol` for the fields lo .. hi - 1 in turn, in the plain
      attribute, as `recolumn` redraws them. */
  function ShowCols(v: PadView.View, ncols: nat, sizes: seq<int>, fields: seq<string>, line: nat, lo: nat, hi: nat): (r: PadView.Step)
    requires PadView.Valid(v) && line < |v.buf| && lo <= hi <= |sizes| && |fields| == |sizes|
    ensures PadView.Valid(r.v) && |r.v.buf| >= |v.buf|
    decreases hi - lo
  {
    if hi == lo then PadView.Step(v, [])
    else
      var r := ShowCols(v, ncols, sizes, fields, line, lo, hi - 1);
      var s := ShowCol(r.v, ncols, sizes, fields, line, hi - 1, NORMAL);
      PadView.Step(s.v, r.ops + s.ops)
  }

  // ---------------------------------------------------------------------
  // Changes to the lists

  /** Python `s.insert(i, x)` for 0 <= i <= len(s). */
  function InsertAt<T>(s: seq<T>, i: nat, x: T): (r: seq<T>)
    requires i <= |s|
    ensures |r| == |s| + 1
  {
    s[..i] + [x] + s[i..]
  }

  /** Python `del s[i]`. */
  function RemoveAt<T>(s: seq<T>, i: nat): (r: seq<T>)
    requires i < |s|
    ensures |r| == |s| - 1
  {
    s[..i] + s[i + 1..]
  }

  /** `insertLine(line, sizes)`: a line of empty fields without owners. */
  function InsertRow(t: Table, line: nat, sizes: seq<int>): (r: Table)
    requires Rows(t) && line <= |t.cols|
    ensures Rows(r) && |r.cols| == |t.cols| + 1
  {
    Table(InsertAt(t.colsizes, line, sizes),
          InsertAt(t.cols, line, Repeat("", |sizes|)),
          InsertAt(t.objs, line, Repeat(Null, |sizes|)))
  }

  /** `deleteLine(line)`. */
  function DeleteRow(t: Table, line: nat): Table
    requires Rows(t) && line < |t.cols|
  {
    Table(RemoveAt(t.colsizes, line), RemoveAt(t.cols, line), RemoveAt(t.objs, line))
  }

  /** How many fields of line `line` `recolumn(line, col, sizes)` keeps:
      those before col (all of them when col is past the end). */
  function Kept(t: Table, line: nat, col: nat): nat
    requires Shaped(t) && line < |t.cols|
  {
    Min(col, |t.cols[line]|)
  }

  /** `recolumn(line, col, sizes)`: the fields before col stay, the rest are
      replaced by empty fields without owners, one per width in sizes. */
  function Recolumn(t: Table, line: nat, col: nat, sizes: seq<int>): Table
    requires Shaped(t) && line < |t.cols|
  {
    var k := Kept(t, line, col);
    Table(t.colsizes[line := t.colsizes[line][..k] + sizes],
          t.cols[line := t.cols[line][..k] + Repeat("", |sizes|)],
          t.objs[line := t.objs[line][..k] + Repeat(Null, |sizes|)])
  }

  /** The text of field (line, col) set to s, and its owner to obj when one
      is given. */
  function SetField(t: Table, line: nat, col: nat, s: string, obj: Option<Obj>): Table
    requires Shaped(t) && line < |t.cols| && col < |t.cols[line]|
  {
    Table(t.colsizes, t.cols[line := t.cols[line][col := s]],
          match obj
          case None => t.objs
          case Some(o) => t.objs[line := t.objs[line][col := o]])
  }

  /** `getField` */
  function GetField(t: Table, line: nat, col: nat): string
    requires Shaped(t) && line < |t.cols| && col < |t.cols[line]|
  {
    t.cols[line][col]
  }

  /** `getObj` */
  function GetObj(t: Table, line: nat, col: nat): Obj
    requires Shaped(t) && line < |t.cols| && col < |t.cols[line]|
  {
    t.objs[line][col]
  }

  /** `setObj` */
  function SetObj(t: Table, line: nat, col: nat, obj: Obj): Table
    requires Shaped(t) && line < |t.cols| && col < |t.cols[line]|
  {
    t.(objs := t.objs[line := t.objs[line][col := obj]])
  }

  // ---------------------------------------------------------------------
  // Checks and searches

  /** `_checklinepos`. */
  function CheckLine(t: Table, line: nat, name: string): Option<ColErr>
  {
    if line >= |t.cols| then Some(LineRange(name, line, |t.cols| - 1)) else None
  }

  /** `_checkpos`. */
  function CheckPos(t: Table, line: nat, col: nat, name: string): (e: Option<ColErr>)
    requires Shaped(t)
    ensures e.None? <==> line < |t.cols| && col < |t.cols[line]|
  {
    if line >= |t.cols| then Some(LineRange(name, line, |t.cols| - 1))
    else if col >= |t.cols[line]| then Some(ColRange(name, line, col, |t.cols[line]| - 1))
    else None
  }

  predicate IsStep(step: int)
  {
    step == LEFT || step == RIGHT
  }

  /** The first selectable field (width >= 0) met walking from c in steps
      of step, if any before the walk leaves the line. */
  function First(sizes: seq<int>, c: int, step: int): (r: Option<nat>)
    requires IsStep(step)
    ensures r.Some? ==> r.value < |sizes| && sizes[r.value] >= 0
    decreases if step == RIGHT then |sizes| - c else c + 1
  {
    if c < 0 || c >= |sizes| then None
    else if sizes[c] >= 0 then Some(c)
    else First(sizes, c + step, step)
  }

  /** `highlightColumn`'s starting field: col clamped into the line. */
  function Clamp(sizes: seq<int>, col: int): int
  {
    var c := if col >= |sizes| then |sizes| - 1 else col;
    if c < 0 then 0 else c
  }

  /** The field `highlightColumn(line, col, dir)` picks: the nearest
      selectable field at or beyond the clamped col in direction dir, else
      the nearest in the other direction. */
  function Highlight(sizes: seq<int>, col: int, dir: int): (r: Option<nat>)
    requires IsStep(dir)
    ensures r.Some? ==> r.value < |sizes| && sizes[r.value] >= 0
  {
    var c := Clamp(sizes, col);
    match First(sizes, c, dir)
    case Some(r) => Some(r)
    case None => First(sizes, c, -dir)
  }

  /** The predicate the search looks for, on a whole range: every field in
      [lo, hi) is fixed (negative width, not selectable). */
  predicate AllFixed(sizes: seq<int>, lo: int, hi: int)
  {
    forall j :: lo <= j < hi && 0 <= j < |sizes| ==> sizes[j] < 0
  }

  /** `lineOf(column, obj)` from line i on: the first line whose field
      column holds obj; a line too short to have that field raises
      IndexError, as the source's indexing does. */
  function LineOfFrom(objs: seq<seq<Obj>>, column: nat, obj: Obj, i: nat): Result<nat, ColErr>
    requires i <= |objs|
    decreases |objs| - i
  {
    if i == |objs| then Err(NotFound)
    else if column >= |objs[i]| then Err(IndexError)
    else if objs[i][column] == obj then Ok(i)
    else LineOfFrom(objs, column, obj, i + 1)
  }

  function LineOf(objs: seq<seq<Obj>>, column: nat, obj: Obj): Result<nat, ColErr>
  {
    LineOfFrom(objs, column, obj, 0)
  }

  /** No line before i holds obj in field column, and all have that field. */
  predicate Missing(objs: seq<seq<Obj>>, column: nat, obj: Obj, i: nat)
    requires i <= |objs|
  {
    forall j :: 0 <= j < i ==> column < |objs[j]| && objs[j][column] != obj
  }

  // =====================================================================
  // Properties

  /** `insertLine` keeps the lists parallel: the new line has one empty
      field without owner per width, and the other lines move down one. */
  lemma InsertRowEffect(t: Table, line: nat, sizes: seq<int>)
    requires Shaped(t) && line <= |t.cols|
    ensures var r := InsertRow(t, line, sizes);
      Shaped(r) && |r.cols| == |t.cols| + 1 &&
      r.colsizes[line] == sizes &&
      (forall k :: 0 <= k < |sizes| ==> r.cols[line][k] == "" && r.objs[line][k] == Null) &&
      (forall i :: 0 <= i < |t.cols| ==>
        var j := if i < line then i else i + 1;
        r.colsizes[j] == t.colsizes[i] && r.cols[j] == t.cols[i] && r.objs[j] == t.objs[i])
  {
    var r := InsertRow(t, line, sizes);
    forall i | 0 <= i < |r.colsizes|
      ensures |r.cols[i]| == |r.colsizes[i]| && |r.objs[i]| == |r.colsizes[i]|
    {
      if i < line {
        assert r.cols[i] == t.cols[i] && r.objs[i] == t.objs[i] && r.colsizes[i] == t.colsizes[i];
      } else if i > line {
        assert r.cols[i] == t.cols[i - 1] && r.objs[i] == t.objs[i - 1] && r.colsizes[i] == t.colsizes[i - 1];
      }
    }
  }

  /** `deleteLine` keeps the lists parallel and the other lines in order. */
  lemma DeleteRowEffect(t: Table, line: nat)
    requires Shaped(t) && line < |t.cols|
    ensures var r := DeleteRow(t, line);
      Shaped(r) && |r.cols| == |t.cols| - 1 &&
      (forall i :: 0 <= i < |r.cols| ==>
        var j := if i < line then i else i + 1;
        r.colsizes[i] == t.colsizes[j] && r.cols[i] == t.cols[j] && r.objs[i] == t.objs[j])
  {
    var r := DeleteRow(t, line);
    forall i | 0 <= i < |r.colsizes|
      ensures |r.cols[i]| == |r.colsizes[i]| && |r.objs[i]| == |r.colsizes[i]|
    {
      if i < line {
        assert r.cols[i] == t.cols[i] && r.objs[i] == t.objs[i] && r.colsizes[i] == t.colsizes[i];
      } else {
        assert r.cols[i] == t.cols[i + 1] && r.objs[i] == t.objs[i + 1] && r.colsizes[i] == t.colsizes[i + 1];
      }
    }
  }

  /** Deleting an inserted line gives the table back. */
  lemma DeleteInsertRow(t: Table, line: nat, sizes: seq<int>)
    requires Rows(t) && line <= |t.cols|
    ensures DeleteRow(InsertRow(t, line, sizes), line) == t
  {
    RemoveInserted(t.colsizes, line, sizes);
    RemoveInserted(t.cols, line, Repeat("", |sizes|));
    RemoveInserted(t.objs, line, Repeat(Null, |sizes|));
  }

  lemma RemoveInserted<T>(s: seq<T>, i: nat, x: T)
    requires i <= |s|
    ensures RemoveAt(InsertAt(s, i, x), i) == s
  {
    var r := InsertAt(s, i, x);
    assert r[..i] == s[..i] && r[i + 1..] == s[i..];
  }

  /** `recolumn(line, col, sizes)` keeps the lists parallel; on that line
      the fields before col keep their widths, texts and owners, the rest
      are the new widths with empty texts and no owners; no other line
      changes. */
  lemma RecolumnEffect(t: Table, line: nat, col: nat, sizes: seq<int>)
    requires Shaped(t) && line < |t.cols|
    ensures var r := Recolumn(t, line, col, sizes); var k := Kept(t, line, col);
      Shaped(r) && |r.cols| == |t.cols| &&
      r.colsizes[line] == t.colsizes[line][..k] + sizes &&
      |r.cols[line]| == k + |sizes| &&
      (forall j :: 0 <= j < k ==> r.cols[line][j] == t.cols[line][j] && r.objs[line][j] == t.objs[line][j]) &&
      (forall j :: k <= j < k + |sizes| ==> r.cols[line][j] == "" && r.objs[line][j] == Null) &&
      (forall i :: 0 <= i < |t.cols| && i != line ==>
        r.colsizes[i] == t.colsizes[i] && r.cols[i] == t.cols[i] && r.objs[i] == t.objs[i])
  {
  }

  /** `setColumn` stores the justified text unshortened, changes the owner
      only when one is given, and touches no other field. */
  lemma SetFieldEffect(t: Table, line: nat, col: nat, s: string, obj: Option<Obj>)
    requires Shaped(t) && line < |t.cols| && col < |t.cols[line]|
    ensures var r := SetField(t, line, col, s, obj);
      Shaped(r) && r.colsizes == t.colsizes &&
      GetField(r, line, col) == s &&
      GetObj(r, line, col) == obj.GetOr(GetObj(t, line, col)) &&
      (forall i, j :: 0 <= i < |t.cols| && 0 <= j < |t.cols[i]| && (i, j) != (line, col) ==>
        GetField(r, i, j) == GetField(t, i, j) && GetObj(r, i, j) == GetObj(t, i, j))
  {
  }

  /** `getObj` after `setObj` gives the owner set; every other owner and
      all texts and widths stay. */
  lemma SetObjGetObj(t: Table, line: nat, col: nat, obj: Obj)
    requires Shaped(t) && line < |t.cols| && col < |t.cols[line]|
    ensures var r := SetObj(t, line, col, obj);
      Shaped(r) && r.colsizes == t.colsizes && r.cols == t.cols &&
      GetObj(r, line, col) == obj &&
      (forall i, j :: 0 <= i < |t.cols| && 0 <= j < |t.cols[i]| && (i, j) != (line, col) ==>
        GetObj(r, i, j) == GetObj(t, i, j))
  {
  }

  /** Fields are laid end to end: each starts where the one before it ends,
      so no two overlap. */
  lemma {:induction false} OffsetOrder(sizes: seq<int>, c: nat, d: nat)
    requires c < d <= |sizes|
    ensures Offset(sizes, c) + Abs(sizes[c]) <= Offset(sizes, d)
    ensures d == c + 1 ==> Offset(sizes, d) == Offset(sizes, c) + Abs(sizes[c])
    decreases d
  {
    if d > c + 1 {
      OffsetOrder(sizes, c, d - 1);
    }
  }

  /** The offset of a field depends only on the widths before it, so
      `recolumn` leaves the kept fields where they were. */
  lemma {:induction false} OffsetPrefix(a: seq<int>, b: seq<int>, col: nat)
    requires col <= |a|
    ensures Offset(a + b, col) == Offset(a, col)
    decreases col
  {
    if col > 0 {
      OffsetPrefix(a, b, col - 1);
      assert (a + b)[col - 1] == a[col - 1];
    }
  }

  /** A field is shown exactly its width wide: the text cut to it, or the
      text followed by spaces. */
  lemma FitWidth(s: string, size: int)
    requires size >= 0
    ensures |Fit(s, size)| == size
    ensures |s| >= size ==> Fit(s, size) == s[..size]
    ensures |s| < size ==> Fit(s, size)[..|s|] == s
    ensures forall j :: |s| <= j < size ==> Fit(s, size)[j] == ' '
  {
    if |s| < size {
      assert Fit(s, size) == s + FormatSpace(size - |s|);
      assert forall j :: |s| <= j < size ==> Fit(s, size)[j] == FormatSpace(size - |s|)[j - |s|];
    }
  }

  /** Right-justifying pads on the left to the field's width and keeps the
      text at the end; a text at least that wide, a width-0 field, or no
      justification leaves the text as given. */
  lemma JustifiedEffect(s: string, colsize: nat, rjust: bool)
    ensures var j := Justified(s, colsize, rjust);
      (rjust && |s| < colsize ==>
        |j| == colsize && j[colsize - |s|..] == s && forall i :: 0 <= i < colsize - |s| ==> j[i] == ' ') &&
      (!rjust || |s| >= colsize || colsize == 0 ==> j == s)
  {
  }

  /** The walk of `First` finds a selectable field with only fixed fields
      between it and the start, or leaves the line having met only fixed
      fields. */
  lemma {:induction false} FirstFinds(sizes: seq<int>, c: int, step: int)
    requires IsStep(step)
    requires if step == RIGHT then 0 <= c <= |sizes| else -1 <= c < |sizes| || sizes == []
    ensures match First(sizes, c, step)
      case Some(r) =>
        0 <= c < |sizes| && r < |sizes| && sizes[r] >= 0 &&
        (step == RIGHT ==> c <= r && AllFixed(sizes, c, r)) &&
        (step == LEFT ==> r <= c && AllFixed(sizes, r + 1, c + 1))
      case None =>
        (step == RIGHT ==> AllFixed(sizes, c, |sizes|)) &&
        (step == LEFT ==> AllFixed(sizes, 0, c + 1))
    decreases if step == RIGHT then |sizes| - c else c + 1
  {
    if 0 <= c < |sizes| && sizes[c] < 0 {
      FirstFinds(sizes, c + step, step);
    }
  }

  /** The field `highlightColumn` picks is selectable, and the nearest one
      to the clamped start: none between them in direction dir, and when it
      lies the other way, none at all from the start on in direction dir. */
  lemma HighlightNearest(sizes: seq<int>, col: int, dir: int)
    requires IsStep(dir)
    ensures var c := Clamp(sizes, col);
      match Highlight(sizes, col, dir)
      case Some(r) =>
        r < |sizes| && sizes[r] >= 0 &&
        (if dir == RIGHT then
           (c <= r && AllFixed(sizes, c, r)) || (r < c && AllFixed(sizes, c, |sizes|) && AllFixed(sizes, r + 1, c))
         else
           (r <= c && AllFixed(sizes, r + 1, c + 1)) || (c < r && AllFixed(sizes, 0, c + 1) && AllFixed(sizes, c, r)))
      case None => true
  {
    var c := Clamp(sizes, col);
    FirstFinds(sizes, c, dir);
    FirstFinds(sizes, c, -dir);
  }

  /** `highlightColumn` raises exactly when no field of the line is
      selectable. */
  lemma HighlightNone(sizes: seq<int>, col: int, dir: int)
    requires IsStep(dir)
    ensures Highlight(sizes, col, dir).None? <==> AllFixed(sizes, 0, |sizes|)
  {
    var c := Clamp(sizes, col);
    FirstFinds(sizes, c, dir);
    FirstFinds(sizes, c, -dir);
    if Highlight(sizes, col, dir).None? && |sizes| > 0 {
      assert AllFixed(sizes, c, |sizes|) && AllFixed(sizes, 0, c + 1);
    }
  }

  /** `lineOf` finds the smallest line whose field holds obj, and raises
      NotFound exactly when every line has that field and none holds obj. */
  lemma {:induction false} LineOfFirst(objs: seq<seq<Obj>>, column: nat, obj: Obj, i: nat)
    requires i <= |objs| && Missing(objs, column, obj, i)
    ensures match LineOfFrom(objs, column, obj, i)
      case Ok(n) => i <= n < |objs| && column < |objs[n]| && objs[n][column] == obj && Missing(objs, column, obj, n)
      case Err(e) =>
        (e == NotFound <==> Missing(objs, column, obj, |objs|)) &&
        (e == IndexError <==> exists n :: i <= n < |objs| && Missing(objs, column, obj, n) && column >= |objs[n]|)
    decreases |objs| - i
  {
    if i < |objs| && column < |objs[i]| && objs[i][column] != obj {
      LineOfFirst(objs, column, obj, i + 1);
      var r := LineOfFrom(objs, column, obj, i + 1);
      if r == Err(IndexError) {
        var n :| i + 1 <= n < |objs| && Missing(objs, column, obj, n) && column >= |objs[n]|;
        assert i <= n;
      }
    } else if i < |objs| && column >= |objs[i]| {
      assert !Missing(objs, column, obj, |objs|);
    }
  }
}
