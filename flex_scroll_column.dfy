/** `FlexScrollColumn` (UIpartition/FlexScrollColumn.py): a pad whose lines
    are cut into fields.  The class keeps the three parallel lists of
    `ColumnView` and draws every field it changes on its `FlexScrollPad`;
    each method's contract gives the new lists as a `ColumnView` function of
    the old ones and the pad's new state as the `PadView` operations it
    issues. */
module FlexScrollColumn {
  import opened Wrappers
  import opened Surface
  import opened Text
  import PadView
  import FlexScrollPad
  import PadProps
  import opened ColumnView

  /** The `append("")` / `append(None)` loops of `insertLine` and
      `recolumn`: n empty fields without owners added to cs and os. */
  method AppendEmpty(cs: seq<string>, os: seq<Obj>, n: nat) returns (cs': seq<string>, os': seq<Obj>)
    ensures cs' == cs + Repeat("", n) && os' == os + Repeat(Null, n)
  {
    cs', os' := cs, os;
    for i := 0 to n
      invariant cs' == cs + Repeat("", i) && os' == os + Repeat(Null, i)
    {
      assert Repeat("", i + 1) == Repeat("", i) + [""];
      assert Repeat(Null, i + 1) == Repeat(Null, i) + [Null];
      cs' := cs' + [""];
      os' := os' + [Null];
    }
  }

  /** The `del` loop of `recolumn`: the fields from col on are deleted one
      by one, always at index col. */
  method DropFields(cs: seq<string>, os: seq<Obj>, col: nat) returns (cs': seq<string>, os': seq<Obj>)
    requires |cs| == |os|
    ensures cs' == cs[..Min(col, |cs|)] && os' == os[..Min(col, |os|)]
  {
    cs', os' := cs, os;
    var i := col;
    while i < |cs|
      invariant col <= i && (col < |cs| ==> i <= |cs|)
      invariant if col < |cs| then cs' == cs[..col] + cs[i..] && os' == os[..col] + os[i..] else cs' == cs && os' == os
    {
      assert cs'[col + 1..] == cs[i + 1..] && os'[col + 1..] == os[i + 1..];
      cs' := cs'[..col] + cs'[col + 1..];
      os' := os'[..col] + os'[col + 1..];
      i := i + 1;
    }
    if col < |cs| {
      assert cs[|cs|..] == [] && os[|os|..] == [];
    }
  }

  /** The offset loops of `_showcol` and `recolumn`: the widths of the
      fields before col, added up. */
  method OffsetOf(sizes: seq<int>, col: nat) returns (pos: nat)
    requires col <= |sizes|
    ensures pos == Offset(sizes, col)
  {
    pos := 0;
    for i := 0 to col
      invariant pos == Offset(sizes, i)
    {
      var si := sizes[i];
      if si < 0 {
        si := -si;
      }
      pos := pos + si;
    }
  }

  /** One walk of `highlightColumn` from col in steps of i: it stops on a
      selectable field, or leaves the line and steps back onto it. */
  method Walk(sizes: seq<int>, col: int, i: int) returns (found: bool, c: int)
    requires IsStep(i)
    ensures found <==> First(sizes, col, i).Some?
    ensures found ==> c == First(sizes, col, i).value
    ensures !found && 0 <= col < |sizes| ==> c == (if i == RIGHT then |sizes| - 1 else 0)
  {
    c := col;
    found := false;
    while 0 <= c < |sizes|
      invariant First(sizes, c, i) == First(sizes, col, i)
      invariant 0 <= col < |sizes| ==> if i == RIGHT then col <= c <= |sizes| else -1 <= c <= col
      decreases if i == RIGHT then |sizes| - c else c + 1
    {
      if sizes[c] >= 0 {
        found := true;
        break;
      }
      c := c + i;
    }
    if !found {
      c := c - i;
    }
  }

  /** The search of `highlightColumn(line, col, dir)`: col clamped into
      the line, a walk in direction dir, and if it finds nothing a walk back
      the other way. */
  method Search(sizes: seq<int>, col: int, dir: int) returns (found: bool, c: int)
    requires IsStep(dir)
    ensures found <==> Highlight(sizes, col, dir).Some?
    ensures found ==> c == Highlight(sizes, col, dir).value
  {
    c := col;
    if c >= |sizes| {
      c := |sizes| - 1;
    }
    if c < 0 {
      c := 0;
    }
    ghost var c0 := c;
    found, c := Walk(sizes, c, dir);
    if !found {
      FirstFinds(sizes, c0, dir);
      if |sizes| > 0 {
        FirstSkip(sizes, c, c0, -dir);
      }
      found, c := Walk(sizes, c, -dir);
    }
  }

  /** Walking in steps of step over fixed fields only from b reaches what
      walking from c finds. */
  lemma {:induction false} FirstSkip(sizes: seq<int>, b: int, c: int, step: int)
    requires IsStep(step) && 0 <= b < |sizes| && 0 <= c < |sizes|
    requires step == RIGHT ==> b <= c && AllFixed(sizes, b, c)
    requires step == LEFT ==> c <= b && AllFixed(sizes, c + 1, b + 1)
    ensures First(sizes, b, step) == First(sizes, c, step)
    decreases if step == RIGHT then c - b else b - c
  {
    if b != c {
      FirstSkip(sizes, b + step, c, step);
    }
  }

  /** The loop of `unhighlightColumn`: from col, skip the fixed fields; it
      runs off the end of the line (IndexError) when only fixed fields
      follow. */
  method SkipFixed(sizes: seq<int>, col: nat) returns (r: Option<nat>)
    ensures r == First(sizes, col, RIGHT)
  {
    var c := col;
    while c < |sizes| && sizes[c] < 0
      invariant col <= c
      invariant First(sizes, c, RIGHT) == First(sizes, col, RIGHT)
      decreases |sizes| - c
    {
      c := c + 1;
    }
    if c >= |sizes| {
      return None;
    }
    return Some(c);
  }

  /** The body of `_showcol(line, col, at)` on the pad, for the line's
      widths and texts. */
  method ShowField(pad: FlexScrollPad.Pad, ncols: nat, sizes: seq<int>, fields: seq<string>,
                   line: nat, col: nat, at: Attr, ghost v: PadView.View)
    requires pad.Valid() && v == pad.Model() && line < |v.buf| && col < |sizes| && |fields| == |sizes|
    modifies pad
    ensures pad.Valid()
    ensures var r := ShowCol(v, ncols, sizes, fields, line, col, at);
      pad.Model() == r.v && pad.surface == old(pad.surface) + r.ops
  {
    var s := fields[col];
    var pos := OffsetOf(sizes, col);
    var slen := |s|;
    var size := sizes[col];
    if size < 0 {
      size := -size;
    } else if size == 0 {
      size := ncols - pos;
    }
    var dstr;
    if slen < size {
      dstr := s + FormatSpace(size - slen);
    } else if slen > size {
      dstr := s[..SliceEnd(slen, size)];
    } else {
      dstr := s;
    }
    assert dstr == Fit(s, Width(sizes, col, ncols));
    var _ := pad.Addstr(Some((line, pos)), dstr, Some(at));
  }

  /** The last loop of `recolumn`: `_showcol` for every field from col on,
      in the plain attribute. */
  method ShowFields(pad: FlexScrollPad.Pad, ncols: nat, sizes: seq<int>, fields: seq<string>,
                    line: nat, col: nat, ghost v: PadView.View)
    requires PadView.Valid(v) && v == pad.Model() && line < |v.buf| && col <= |sizes| && |fields| == |sizes|
    modifies pad
    ensures var r := ShowCols(v, ncols, sizes, fields, line, col, |sizes|);
      pad.Model() == r.v && pad.surface == old(pad.surface) + r.ops
  {
    ghost var s0 := pad.surface;
    assert s0 + [] == s0;
    var i := col;
    while i != |sizes|
      invariant Shown(pad.Model(), pad.surface, s0, v, ncols, sizes, fields, line, col, i)
      decreases |sizes| - i
    {
      ShowNext(pad, ncols, sizes, fields, line, col, i, v, s0);
      i := i + 1;
    }
  }

  /** The pad m with surface surf shows the fields col .. i - 1 drawn on v
      with surface s0. */
  ghost predicate Shown(m: PadView.View, surf: seq<Op>, s0: seq<Op>, v: PadView.View, ncols: nat, sizes: seq<int>,
                        fields: seq<string>, line: nat, col: nat, i: nat)
  {
    PadView.Valid(v) && line < |v.buf| && col <= i <= |sizes| && |fields| == |sizes| &&
    var r := ShowCols(v, ncols, sizes, fields, line, col, i);
    m == r.v && surf == s0 + r.ops
  }

  /** One pass of the loop of `ShowFields`: field i drawn after the fields
      col .. i - 1. */
  method ShowNext(pad: FlexScrollPad.Pad, ncols: nat, sizes: seq<int>, fields: seq<string>, line: nat, col: nat, i: nat,
                  ghost v: PadView.View, ghost s0: seq<Op>)
    requires i < |sizes| && Shown(pad.Model(), pad.surface, s0, v, ncols, sizes, fields, line, col, i)
    modifies pad
    ensures Shown(pad.Model(), pad.surface, s0, v, ncols, sizes, fields, line, col, i + 1)
  {
    ghost var st := ShowCols(v, ncols, sizes, fields, line, col, i);
    ghost var s := ShowCol(st.v, ncols, sizes, fields, line, i, NORMAL);
    ShowField(pad, ncols, sizes, fields, line, i, NORMAL, pad.Model());
    FlexScrollPad.AppendAssoc(s0, st.ops, s.ops);
  }

  class Column {
    const ncols: nat
    /** The pad the fields are drawn on. */
    const pad: FlexScrollPad.Pad
    var colsizes: seq<seq<int>>
    var cols: seq<seq<string>>
    var objs: seq<seq<Obj>>

    /** The three lists as a value. */
    function Model(): Table
      reads this`colsizes, this`cols, this`objs
    {
      Table(colsizes, cols, objs)
    }

    /** The lists are parallel, and the pad is valid, as wide as the
        fields' window and has a line for every line of fields (more only
        when a field's text held a line break, which `addstr` continues on
        a new line). */
    predicate Valid()
      reads this, pad
    {
      Shaped(Model()) && pad.Valid() && pad.ncols == ncols && |pad.buf| >= |cols|
    }

    /** `__init__`: no lines, on a new pad of the window's size. */
    constructor(nlines: nat, ncols: nat)
      ensures Valid() && Model() == Empty()
      ensures fresh(pad) && pad.Model() == PadView.Init(nlines, ncols) && pad.surface == []
    {
      this.ncols := ncols;
      pad := new FlexScrollPad.Pad(nlines, ncols);
      colsizes, cols, objs := [], [], [];
    }

    /** `numLines` */
    function NumLines(): nat
      reads this`cols
    {
      |cols|
    }

    /** `numColumns` */
    function NumColumns(line: nat): nat
      requires line < |cols|
      reads this`cols
    {
      |cols[line]|
    }

    /** `_getcolsize`: the field's width without its sign. */
    function GetColSize(line: nat, col: nat): nat
      requires line < |colsizes| && col < |colsizes[line]|
      reads this`colsizes
    {
      Abs(colsizes[line][col])
    }

    /** `getField(line, column)` */
    function GetField(line: nat, col: nat): string
      requires Valid() && line < |cols| && col < |cols[line]|
      reads this, pad
    {
      ColumnView.GetField(Model(), line, col)
    }

    /** `getObj(line, column)` */
    function GetObj(line: nat, col: nat): Obj
      requires Valid() && line < |cols| && col < |cols[line]|
      reads this, pad
    {
      ColumnView.GetObj(Model(), line, col)
    }

    /** `setObj(line, column, obj)`. */
    method SetObj(line: nat, col: nat, obj: Obj)
      requires Valid() && line < |cols| && col < |cols[line]|
      modifies this`objs
      ensures Valid() && Model() == ColumnView.SetObj(old(Model()), line, col, obj)
    {
      objs := objs[line := objs[line][col := obj]];
      SetObjGetObj(old(Model()), line, col, obj);
    }

    /** `_showcol(line, col, at)`: the field's text, padded with spaces or
        cut to the field's width, written at the field's offset. */
    method ShowColumn(line: nat, col: nat, at: Attr, ghost v: PadView.View)
      requires Valid() && line < |cols| && col < |cols[line]| && v == pad.Model()
      modifies pad
      ensures Valid()
      ensures var r := ShowCol(v, ncols, colsizes[line], cols[line], line, col, at);
        pad.Model() == r.v && pad.surface == old(pad.surface) + r.ops
    {
      ShowField(pad, ncols, colsizes[line], cols[line], line, col, at, pad.Model());
    }

    /** `insertLine(line, sizes)`: a line of empty fields, one per width,
        and on the pad a new line filled with a window's width of spaces. */
    method InsertLine(line: nat, sizes: seq<int>) returns (err: Option<ColErr>)
      requires Valid()
      modifies this, pad
      ensures Valid()
      ensures line > |old(cols)| ==>
        err == Some(LineRange("insertLine", line, |old(cols)|)) &&
        Model() == old(Model()) && pad.Model() == old(pad.Model()) && pad.surface == old(pad.surface)
      ensures line <= |old(cols)| ==>
        var r1 := PadView.InsertLn(old(pad.Model()), line, false);
        var r2 := PadView.Addstr(r1.v, line, 0, FormatSpace(ncols), r1.v.curattr, false);
        err == None && Model() == InsertRow(old(Model()), line, sizes) &&
        pad.Model() == r2.v && pad.surface == old(pad.surface) + r1.ops + r2.ops
    {
      if line > |cols| {
        return Some(LineRange("insertLine", line, |cols|));
      }
      InsertFields(line, sizes);
      PadInsert(line, pad.Model());
      return None;
    }

    /** The list part of `insertLine`. */
    method InsertFields(line: nat, sizes: seq<int>)
      requires Shaped(Model()) && line <= |cols|
      modifies this`colsizes, this`cols, this`objs
      ensures Shaped(Model()) && Model() == InsertRow(old(Model()), line, sizes)
    {
      InsertRowEffect(Model(), line, sizes);
      colsizes := InsertAt(colsizes, line, sizes);
      var colstrs, os := AppendEmpty([], [], |sizes|);
      assert colstrs == Repeat("", |sizes|) && os == Repeat(Null, |sizes|);
      cols := InsertAt(cols, line, colstrs);
      objs := InsertAt(objs, line, os);
    }

    /** The pad part of `insertLine`: a new line at line, then a window's
        width of spaces written on it. */
    method PadInsert(line: nat, ghost v: PadView.View)
      requires pad.Valid() && v == pad.Model() && line <= |v.buf|
      modifies pad
      ensures pad.Valid()
      ensures var r1 := PadView.InsertLn(v, line, false);
        var r2 := PadView.Addstr(r1.v, line, 0, FormatSpace(ncols), r1.v.curattr, false);
        pad.Model() == r2.v && pad.surface == old(pad.surface) + r1.ops + r2.ops && |r2.v.buf| > |v.buf|
    {
      var _ := pad.Insertln(Some(line));
      var _ := pad.Addstr(Some((line, 0)), FormatSpace(ncols), None);
    }

    /** `deleteLine(line)`: the line goes from the three lists and from the
        pad. */
    method DeleteLine(line: nat) returns (err: Option<ColErr>)
      requires Valid()
      modifies this, pad
      ensures Valid()
      ensures line >= |old(cols)| ==>
        err == Some(LineRange("deleteLine", line, |old(cols)| - 1)) &&
        Model() == old(Model()) && pad.Model() == old(pad.Model()) && pad.surface == old(pad.surface)
      ensures line < |old(cols)| ==>
        var r := PadView.Deleteln(old(pad.Model()), line);
        err == None && Model() == DeleteRow(old(Model()), line) &&
        pad.Model() == r.v && pad.surface == old(pad.surface) + r.ops
    {
      if line >= |cols| {
        return Some(LineRange("deleteLine", line, |cols| - 1));
      }
      DeleteRowEffect(Model(), line);
      cols := RemoveAt(cols, line);
      colsizes := RemoveAt(colsizes, line);
      objs := RemoveAt(objs, line);
      var _ := pad.Deleteln(Some(line));
      return None;
    }

    /** `recolumn(line, col, sizes)`: the fields from col on are replaced by
        empty fields of the given widths; the pad line is cleared from the
        offset of col and the fields from col on are drawn again. */
    method Recolumn(line: nat, col: nat, sizes: seq<int>)
      requires Valid() && line < |cols| && col <= |cols[line]| + |sizes|
      modifies this, pad
      ensures Valid()
      ensures Model() == ColumnView.Recolumn(old(Model()), line, col, sizes)
      ensures var t := ColumnView.Recolumn(old(Model()), line, col, sizes);
        var r1 := PadView.Clrtoeol(old(pad.Model()), line, Offset(t.colsizes[line], col));
        var r2 := ShowCols(r1.v, ncols, t.colsizes[line], t.cols[line], line, col, |t.colsizes[line]|);
        pad.Model() == r2.v && pad.surface == old(pad.surface) + r1.ops + r2.ops
    {
      ghost var t := ColumnView.Recolumn(Model(), line, col, sizes);
      RecolumnEffect(Model(), line, col, sizes);
      colsizes := colsizes[line := Take(colsizes[line], col) + sizes];
      var cs, os := DropFields(cols[line], objs[line], col);
      cs, os := AppendEmpty(cs, os, |sizes|);
      cols := cols[line := cs];
      objs := objs[line := os];
      assert Model() == t;
      var startx := OffsetOf(colsizes[line], col);
      var _ := pad.Clrtoeol(Some((line, startx)));
      ShowFields(pad, ncols, colsizes[line], cols[line], line, col, pad.Model());
    }

    /** `setColumn(line, col, s, obj, rjust)`: after the position check,
        store s (right-justified to the field's width when asked), set the
        owner when one is given, and draw the field. */
    method SetColumn(line: nat, col: nat, s: string, obj: Option<Obj>, rjust: bool) returns (err: Option<ColErr>)
      requires Valid()
      modifies this, pad
      ensures Valid()
      ensures err == CheckPos(old(Model()), line, col, "setColumn")
      ensures err.Some? ==> Model() == old(Model()) && pad.Model() == old(pad.Model()) && pad.surface == old(pad.surface)
      ensures err.None? ==>
        var t := SetField(old(Model()), line, col, Justified(s, Abs(old(colsizes)[line][col]), rjust), obj);
        var r := ShowCol(old(pad.Model()), ncols, t.colsizes[line], t.cols[line], line, col, NORMAL);
        Model() == t && pad.Model() == r.v && pad.surface == old(pad.surface) + r.ops
    {
      err := CheckPos(Model(), line, col, "setColumn");
      if err.Some? {
        return;
      }
      var colsize := GetColSize(line, col);
      var text := s;
      if rjust && |text| < colsize {
        var ladd := colsize - |text|;
        text := FormatSpace(ladd) + text;
      }
      ghost var t := SetField(Model(), line, col, text, obj);
      SetFieldEffect(Model(), line, col, text, obj);
      cols := cols[line := cols[line][col := text]];
      if obj.Some? {
        objs := objs[line := objs[line][col := obj.value]];
      }
      assert Model() == t;
      ShowColumn(line, col, NORMAL, pad.Model());
    }

    /** `highlightColumn(line, col, dir)`: draw the nearest selectable field
        (`ColumnView.Highlight`) standing out, and return it. */
    method HighlightColumn(line: nat, col: int, dir: int) returns (r: Result<nat, ColErr>)
      requires Valid() && IsStep(dir)
      modifies pad
      ensures Valid()
      ensures line >= |cols| ==>
        r == Err(LineRange("highlightColumn", line, |cols| - 1)) &&
        pad.Model() == old(pad.Model()) && pad.surface == old(pad.surface)
      ensures line < |cols| ==>
        match Highlight(colsizes[line], col, dir)
        case None => r == Err(NoColumn) && pad.Model() == old(pad.Model()) && pad.surface == old(pad.surface)
        case Some(c) =>
          var s := ShowCol(old(pad.Model()), ncols, colsizes[line], cols[line], line, c, STANDOUT);
          r == Ok(c) && pad.Model() == s.v && pad.surface == old(pad.surface) + s.ops
    {
      var e := CheckLine(Model(), line, "highlightColumn");
      if e.Some? {
        return Err(e.value);
      }
      var found, c := Search(colsizes[line], col, dir);
      if !found {
        return Err(NoColumn);
      }
      FirstFinds(colsizes[line], Clamp(colsizes[line], col), dir);
      FirstFinds(colsizes[line], Clamp(colsizes[line], col), -dir);
      ShowColumn(line, c, STANDOUT, pad.Model());
      return Ok(c);
    }

    /** `unhighlightColumn(line, col)`: after the position check, draw the
        first selectable field from col on in the plain attribute. */
    method UnhighlightColumn(line: nat, col: nat) returns (err: Option<ColErr>)
      requires Valid()
      modifies pad
      ensures Valid()
      ensures CheckPos(Model(), line, col, "unhighlightColumn").Some? ==>
        err == CheckPos(Model(), line, col, "unhighlightColumn") &&
        pad.Model() == old(pad.Model()) && pad.surface == old(pad.surface)
      ensures CheckPos(Model(), line, col, "unhighlightColumn").None? ==>
        match First(colsizes[line], col, RIGHT)
        case None => err == Some(IndexError) && pad.Model() == old(pad.Model()) && pad.surface == old(pad.surface)
        case Some(c) =>
          var s := ShowCol(old(pad.Model()), ncols, colsizes[line], cols[line], line, c, NORMAL);
          err == None && pad.Model() == s.v && pad.surface == old(pad.surface) + s.ops
    {
      err := CheckPos(Model(), line, col, "unhighlightColumn");
      if err.Some? {
        return;
      }
      var c := SkipFixed(colsizes[line], col);
      if c.None? {
        return Some(IndexError);
      }
      FirstFinds(colsizes[line], col, RIGHT);
      ShowColumn(line, c.value, NORMAL, pad.Model());
    }

    /** `refresh`: the pad's refresh. */
    method Refresh()
      requires Valid()
      modifies pad`surface
      ensures Valid() && pad.Model() == old(pad.Model())
      ensures pad.surface == old(pad.surface) + PadView.Refresh(pad.Model())
    {
      pad.Refresh();
    }

    /** `lineOf(column, obj)`: the first line whose field `column` holds
        obj. */
    method LineOf(column: nat, obj: Obj) returns (r: Result<nat, ColErr>)
      ensures r == ColumnView.LineOf(objs, column, obj)
    {
      for i := 0 to |objs|
        invariant LineOfFrom(objs, column, obj, i) == ColumnView.LineOf(objs, column, obj)
      {
        if column >= |objs[i]| {
          return Err(IndexError);
        }
        if objs[i][column] == obj {
          return Ok(i);
        }
      }
      return Err(NotFound);
    }
  }

  /** The pad line `insertLine` adds holds a window's width of spaces in
      the pad's current attribute, and every other line moves down one. */
  lemma InsertLineBlank(v: PadView.View, line: nat, ncols: nat)
    requires PadView.Valid(v) && line <= |v.buf|
    ensures var r1 := PadView.InsertLn(v, line, false);
      var w := PadView.Addstr(r1.v, line, 0, FormatSpace(ncols), r1.v.curattr, false).v;
      |w.buf| == |v.buf| + 1 &&
      w.buf[line] == FormatSpace(ncols) && w.attr[line] == Repeat(v.curattr, |FormatSpace(ncols)|) &&
      (forall i :: 0 <= i < |v.buf| ==>
        var j := if i < line then i else i + 1;
        w.buf[j] == v.buf[i] && w.attr[j] == v.attr[i])
  {
    var r1 := PadView.InsertLn(v, line, false);
    var sp := FormatSpace(ncols);
    PadProps.InsertLnEffect(v, line, false);
    assert r1.v.curattr == v.curattr;
    SegmentsNoBreak(sp, 0);
    assert sp[0..] == sp;
    PadProps.AddstrEffect(r1.v, line, 0, sp, v.curattr, false);
  }
}
