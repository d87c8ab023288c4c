/** The list-selection popup (`PopupList`): one line per item, drawn as a
    single selectable field on a `FlexScrollColumn`, with the current line
    standing out.  The callback `doneHandler` is replaced by the
    `Handover` a keystroke returns, and Python's `str()` of each item by a
    label given with it. */
module PopupList {
  import opened Wrappers
  import opened Surface
  import opened Text
  import opened Keys
  import PadView
  import opened ColumnView
  import FlexScrollColumn

  /** The initial line: the last index whose label equals curr among the
      first k, or 0 when there is none. */
  function LastMatch(labels: seq<string>, curr: string, k: nat): (r: nat)
    requires k <= |labels|
    ensures k > 0 ==> r < k
  {
    if k == 0 then 0
    else if labels[k - 1] == curr then k - 1
    else LastMatch(labels, curr, k - 1)
  }

  /** The constructor starts on the last item shown as curr, or on the
      first item when none is. */
  lemma {:induction false} LastMatchIs(labels: seq<string>, curr: string, k: nat)
    requires k <= |labels|
    ensures var r := LastMatch(labels, curr, k);
      (curr in labels[..k] ==> r < k && labels[r] == curr && forall j :: r < j < k ==> labels[j] != curr) &&
      (curr !in labels[..k] ==> r == 0)
  {
    if k > 0 {
      LastMatchIs(labels, curr, k - 1);
      assert labels[..k] == labels[..k - 1] + [labels[k - 1]];
    }
  }

  /** The fields of the first k items: one field per line, of the given
      width, holding the item's label and no owner. */
  function ListTable(labels: seq<string>, width: nat, k: nat): (t: Table)
    requires k <= |labels|
    ensures Shaped(t) && |t.cols| == k
  {
    Table(Repeat([width], k), seq(k, i requires 0 <= i < k => [labels[i]]), Repeat([Null], k))
  }

  /** `insertLine(i, (maxwidth,))` then `setColumn(i, 0, str(d))` add item i
      to the fields of the items before it. */
  lemma ListTableStep(labels: seq<string>, width: nat, i: nat)
    requires i < |labels|
    ensures var t := InsertRow(ListTable(labels, width, i), i, [width]);
      Shaped(t) && i < |t.cols| && |t.cols[i]| == 1 &&
      SetField(t, i, 0, labels[i], None) == ListTable(labels, width, i + 1) &&
      ListTable(labels, width, i + 1).colsizes[i] == [width] && ListTable(labels, width, i + 1).cols[i] == [labels[i]]
  {
    var t0 := ListTable(labels, width, i);
    var t := InsertRow(t0, i, [width]);
    var t1 := ListTable(labels, width, i + 1);
    assert t.colsizes == t1.colsizes by {
      AppendRepeat([width], i);
    }
    assert t.objs == t1.objs by {
      assert Repeat(Null, 1) == [Null];
      AppendRepeat([Null], i);
    }
    assert Repeat("", 1) == [""];
    assert t.cols[i][0 := labels[i]] == [labels[i]];
    assert t.cols[i := [labels[i]]] == t1.cols;
  }

  /** Inserting x at the end of n copies of x gives n + 1 copies. */
  lemma AppendRepeat<X>(x: X, n: nat)
    ensures InsertAt(Repeat(x, n), n, x) == Repeat(x, n + 1)
  {
    assert Repeat(x, n)[..n] == Repeat(x, n);
  }

  /** Each item's field is as wide as the longest label: it shows the
      whole label, padded with spaces. */
  lemma ListFieldShows(labels: seq<string>, i: nat)
    requires i < |labels|
    ensures var m := Longest(labels, |labels|);
      Width([m], 0, m) == m && |labels[i]| <= m && Fit(labels[i], m)[..|labels[i]|] == labels[i] &&
      |Fit(labels[i], m)| == m
  {
    LongestIsMax(labels, |labels|);
    FitWidth(labels[i], Longest(labels, |labels|));
  }

  /** Item i placed on the pad of the column window v: `insertLine(i,
      (m,))` inserts a pad line of spaces as wide as the window, and
      `setColumn(i, 0, label)` draws the label in the item's one field. */
  function PlaceItem(v: PadView.View, text: string, m: nat, i: nat): (r: PadView.Step)
    requires PadView.Valid(v) && i <= |v.buf|
    ensures PadView.Valid(r.v) && |r.v.buf| >= i + 1
  {
    var r1 := PadView.InsertLn(v, i, false);
    var r2 := PadView.Addstr(r1.v, i, 0, FormatSpace(m), r1.v.curattr, false);
    var r3 := ShowCol(r2.v, m, [m], [text], i, 0, NORMAL);
    PadView.Step(r3.v, r1.ops + r2.ops + r3.ops)
  }

  /** The pad of the column window, n lines of m columns, after the first
      k items are placed. */
  function ListPad(labels: seq<string>, m: nat, n: nat, k: nat): (r: PadView.Step)
    requires k <= |labels|
    ensures PadView.Valid(r.v) && |r.v.buf| >= k
    decreases k
  {
    if k == 0 then PadView.Step(PadView.Init(n, m), [])
    else
      var d := ListPad(labels, m, n, k - 1);
      var p := PlaceItem(d.v, labels[k - 1], m, k - 1);
      PadView.Step(p.v, d.ops + p.ops)
  }

  /** The pad and the window operations after `__init__`: the items
      placed, then line c's field highlighted. */
  function ListShown(labels: seq<string>, m: nat, c: nat): (r: PadView.Step)
    requires c < |labels|
    ensures PadView.Valid(r.v)
  {
    var d := ListPad(labels, m, |labels|, |labels|);
    var h := ShowCol(d.v, m, [m], [labels[c]], c, 0, STANDOUT);
    PadView.Step(h.v, d.ops + h.ops)
  }

  /** The pad line an item's label is drawn as in a window m wide: the
      label fitted to m columns, or a single space when m is 0 (the space
      `insertLine` puts on the line). */
  function ItemRow(text: string, m: nat): string
  {
    if m == 0 then " " else Fit(text, m)
  }

  /** The lines of the first k items. */
  function ItemRows(labels: seq<string>, m: nat, k: nat): (r: seq<string>)
    requires k <= |labels|
    ensures |r| == k
  {
    if k == 0 then [] else ItemRows(labels, m, k - 1) + [ItemRow(labels[k - 1], m)]
  }

  /** Line i of the first k items is item i's. */
  lemma {:induction false} ItemRowsAt(labels: seq<string>, m: nat, k: nat)
    requires k <= |labels|
    ensures forall i :: 0 <= i < k ==> ItemRows(labels, m, k)[i] == ItemRow(labels[i], m)
  {
    if k > 0 {
      ItemRowsAt(labels, m, k - 1);
      var rows := ItemRows(labels, m, k - 1);
      assert ItemRows(labels, m, k) == rows + [ItemRow(labels[k - 1], m)];
      forall i | 0 <= i < k
        ensures ItemRows(labels, m, k)[i] == ItemRow(labels[i], m)
      {
        if i < k - 1 {
          assert (rows + [ItemRow(labels[k - 1], m)])[i] == rows[i];
        }
      }
    }
  }

  /** The pad `__init__` leaves before the highlight, when no label holds a
      line break: one line per item showing its label, all in the plain
      attribute, the cursor and the window at the origin. */
  ghost predicate Drawn(v: PadView.View, labels: seq<string>, m: nat, n: nat, k: nat)
    requires k <= |labels|
  {
    v.buf == ItemRows(labels, m, k) &&
    v.attr == Repeat(Repeat(NORMAL, Max(m, 1)), k) &&
    v.nlines == n && v.ncols == m && v.curattr == NORMAL &&
    v.topy == 0 && v.topx == 0 && v.cury == 0 && v.curx == 0
  }

  /** e is d with one more line, row, in the attributes a. */
  ghost predicate Appended(d: PadView.View, e: PadView.View, row: string, a: seq<Attr>)
  {
    e.buf == d.buf + [row] && e.attr == d.attr + [a] &&
    e.nlines == d.nlines && e.ncols == d.ncols && e.curattr == d.curattr &&
    e.topy == d.topy && e.topx == d.topx && e.cury == d.cury && e.curx == d.curx
  }

  lemma {:induction false} ListPadLines(labels: seq<string>, m: nat, n: nat, k: nat)
    requires k <= |labels| && forall i :: 0 <= i < |labels| ==> '\n' !in labels[i]
    ensures Drawn(ListPad(labels, m, n, k).v, labels, m, n, k)
    decreases k
  {
    if k > 0 {
      ListPadLines(labels, m, n, k - 1);
      ListPadStep(labels, m, n, k);
      DrawnStep(ListPad(labels, m, n, k - 1).v, ListPad(labels, m, n, k).v, labels, m, n, k);
    }
  }

  /** One item more: its line is appended, and nothing else changes. */
  lemma ListPadStep(labels: seq<string>, m: nat, n: nat, k: nat)
    requires 0 < k <= |labels| && '\n' !in labels[k - 1]
    requires Drawn(ListPad(labels, m, n, k - 1).v, labels, m, n, k - 1)
    ensures Appended(ListPad(labels, m, n, k - 1).v, ListPad(labels, m, n, k).v,
                     ItemRow(labels[k - 1], m), Repeat(NORMAL, Max(m, 1)))
  {
    PlaceItemEffect(ListPad(labels, m, n, k - 1).v, labels[k - 1], m, k - 1);
  }

  lemma DrawnStep(d: PadView.View, e: PadView.View, labels: seq<string>, m: nat, n: nat, k: nat)
    requires 0 < k <= |labels| && Drawn(d, labels, m, n, k - 1)
    requires Appended(d, e, ItemRow(labels[k - 1], m), Repeat(NORMAL, Max(m, 1)))
    ensures Drawn(e, labels, m, n, k)
  {
    RepeatSnoc(Repeat(NORMAL, Max(m, 1)), k - 1);
  }

  /** Placing item i on a pad of i lines appends its line. */
  lemma PlaceItemEffect(d: PadView.View, text: string, m: nat, i: nat)
    requires PadView.Valid(d) && '\n' !in text
    requires |d.buf| == i && d.curattr == NORMAL && d.topy == 0 && d.cury == 0 && d.ncols == m
    ensures PlaceItem(d, text, m, i).v == d.(buf := d.buf + [ItemRow(text, m)], attr := d.attr + [Repeat(NORMAL, Max(m, 1))])
  {
    var v1 := PadView.InsertLn(d, i, false).v;
    AppendLine(d, i);
    var v2 := PadView.Addstr(v1, i, 0, FormatSpace(m), v1.curattr, false).v;
    SpacesLine(v1, i, m);
    LabelLine(v2, i, m, text);
    SetLast(d.buf, "", FormatSpace(m));
    SetLast(d.buf, FormatSpace(m), ItemRow(text, m));
    SetLast(d.attr, [], Repeat(NORMAL, Max(m, 1)));
    SetLast(d.attr, Repeat(NORMAL, Max(m, 1)), Repeat(NORMAL, Max(m, 1)));
  }

  lemma SetLast<X>(s: seq<X>, x: X, y: X)
    ensures (s + [x])[|s| := y] == s + [y]
  {
  }

  /** `insertln` at the end of the pad appends an empty line. */
  lemma AppendLine(d: PadView.View, i: nat)
    requires PadView.Valid(d) && |d.buf| == i && d.topy == 0 && d.cury == 0
    ensures PadView.InsertLn(d, i, false).v == d.(buf := d.buf + [""], attr := d.attr + [[]])
  {
    assert d.buf[..i] == d.buf && d.attr[..i] == d.attr;
    assert d.buf[i..] == [] && d.attr[i..] == [];
  }

  /** `insertLine`'s spaces on the empty line i. */
  lemma SpacesLine(v: PadView.View, i: nat, m: nat)
    requires PadView.Valid(v) && i < |v.buf| && v.buf[i] == "" && v.attr[i] == [] && v.curattr == NORMAL
    ensures PadView.Addstr(v, i, 0, FormatSpace(m), v.curattr, false).v ==
      v.(buf := v.buf[i := FormatSpace(m)], attr := v.attr[i := Repeat(NORMAL, Max(m, 1))])
  {
    PadProps.AddstrInLine(v, i, 0, FormatSpace(m), NORMAL);
    assert PadView.Overwrite(v.buf[i], 0, FormatSpace(m), ' ') == FormatSpace(m);
    assert PadView.Overwrite(v.attr[i], 0, Repeat(NORMAL, |FormatSpace(m)|), NORMAL) == Repeat(NORMAL, Max(m, 1));
  }

  /** `setColumn`'s label over the spaces of line i. */
  lemma LabelLine(v: PadView.View, i: nat, m: nat, text: string)
    requires PadView.Valid(v) && i < |v.buf| && '\n' !in text
    requires v.buf[i] == FormatSpace(m) && v.attr[i] == Repeat(NORMAL, Max(m, 1))
    ensures ShowCol(v, m, [m], [text], i, 0, NORMAL).v ==
      v.(buf := v.buf[i := ItemRow(text, m)], attr := v.attr[i := Repeat(NORMAL, Max(m, 1))])
  {
    ShowColEffect(v, m, [m], [text], i, 0, NORMAL);
    RowDrawn(text, m);
  }

  /** One item's line: the spaces of `insertLine`, then the label fitted
      to the field over them. */
  lemma RowDrawn(text: string, m: nat)
    ensures var f := Fit(text, Width([m], 0, m));
      PadView.Overwrite(FormatSpace(m), 0, f, ' ') == ItemRow(text, m) &&
      PadView.Overwrite(Repeat(NORMAL, Max(m, 1)), 0, Repeat(NORMAL, |f|), NORMAL) == Repeat(NORMAL, Max(m, 1))
  {
    FitWidth(text, m);
  }

  lemma RepeatSnoc<X>(x: X, n: nat)
    ensures Repeat(x, n + 1) == Repeat(x, n) + [x]
  {
  }

  /** The pad `__init__` leaves, when no label holds a line break: line i
      shows item i's label fitted to the widest label's width, the current
      line c in the standout attribute and every other line plain, and the
      highlight is the one write of line c's text at window row c, column
      0 (nothing is written when every label is empty). */
  lemma ListPopupShows(labels: seq<string>, m: nat, c: nat)
    requires c < |labels| && forall i :: 0 <= i < |labels| ==> '\n' !in labels[i]
    ensures var d, r := ListPad(labels, m, |labels|, |labels|), ListShown(labels, m, c);
      |r.v.buf| == |labels| && |r.v.attr| == |labels| &&
      (forall i :: 0 <= i < |labels| ==> r.v.buf[i] == ItemRow(labels[i], m)) &&
      (forall i :: 0 <= i < |labels| ==>
        r.v.attr[i] == Repeat(if i == c && m > 0 then STANDOUT else NORMAL, Max(m, 1))) &&
      r.ops == d.ops + (if m > 0 then [Write(c, 0, Fit(labels[c], m), STANDOUT)] else [])
  {
    var n := |labels|;
    var d := ListPad(labels, m, n, n).v;
    ListPadLines(labels, m, n, n);
    HighlightOver(d, labels, m, c);
    ItemRowsAt(labels, m, n);
  }

  /** The highlight over the drawn pad: the text stays, line c's attributes
      become standout, and the one write is line c's text. */
  lemma HighlightOver(d: PadView.View, labels: seq<string>, m: nat, c: nat)
    requires c < |labels| && '\n' !in labels[c]
    requires PadView.Valid(d) && Drawn(d, labels, m, |labels|, |labels|)
    ensures var h := ShowCol(d, m, [m], [labels[c]], c, 0, STANDOUT);
      h.v.buf == d.buf &&
      h.v.attr == d.attr[c := Repeat(if m > 0 then STANDOUT else NORMAL, Max(m, 1))] &&
      h.ops == (if m > 0 then [Write(c, 0, Fit(labels[c], m), STANDOUT)] else [])
  {
    var row, a := ItemRow(labels[c], m), Repeat(NORMAL, Max(m, 1));
    assert d.buf[c] == row && d.attr[c] == a by {
      ItemRowsAt(labels, m, |labels|);
    }
    HighlightRow(d, labels[c], m, c);
  }

  /** The highlight of one item's line c. */
  lemma HighlightRow(d: PadView.View, text: string, m: nat, c: nat)
    requires PadView.Valid(d) && '\n' !in text && c < |d.buf| && c < d.nlines
    requires d.buf[c] == ItemRow(text, m) && d.attr[c] == Repeat(NORMAL, Max(m, 1))
    requires d.ncols == m && d.curattr == NORMAL && d.topy == 0 && d.topx == 0
    ensures var h := ShowCol(d, m, [m], [text], c, 0, STANDOUT);
      h.v.buf == d.buf &&
      h.v.attr == d.attr[c := Repeat(if m > 0 then STANDOUT else NORMAL, Max(m, 1))] &&
      h.ops == (if m > 0 then [Write(c, 0, Fit(text, m), STANDOUT)] else [])
  {
    ShowColEffect(d, m, [m], [text], c, 0, STANDOUT);
    RowKept(text, m);
    var f := Fit(text, Width([m], 0, m));
    assert d.buf[c := d.buf[c]] == d.buf;
    if m > 0 {
      assert f[0..m] == f;
    }
  }

  /** Standing out rewrites a line's text unchanged and all its attributes. */
  lemma RowKept(text: string, m: nat)
    ensures var f := Fit(text, Width([m], 0, m));
      |f| == m &&
      PadView.Overwrite(ItemRow(text, m), 0, f, ' ') == ItemRow(text, m) &&
      PadView.Overwrite(Repeat(NORMAL, Max(m, 1)), 0, Repeat(STANDOUT, |f|), NORMAL) ==
        Repeat(if m > 0 then STANDOUT else NORMAL, Max(m, 1))
  {
    FitWidth(text, m);
    RowDrawn(text, m);
  }

  /** The state `handleChar` works on. */
  datatype Chooser = Chooser(nlines: nat, curline: nat, done: bool)

  /** The effect of one keystroke on the state, `handleChar`'s result and
      what the done handler would be given. */
  datatype Choice<T> = Choice(s: Chooser, handled: bool, handover: Handover<T>)

  /** `handleChar` on the list items. */
  function Choose<T>(items: seq<T>, s: Chooser, k: Key): Choice<T>
    requires s.nlines == |items| && s.curline < |items|
  {
    match k
    case Enter => Choice(s.(done := true), true, Accepted(items[s.curline]))
    case Cancel => Choice(s.(done := true), true, Cancelled)
    case Up => Choice(if s.curline > 0 then s.(curline := s.curline - 1) else s, true, NoHandover)
    case Down => Choice(if s.curline < s.nlines - 1 then s.(curline := s.curline + 1) else s, true, NoHandover)
    case _ => Choice(s, false, NoHandover)
  }

  /** UP and DOWN move by exactly one line unless at the first or last
      line, and the line stays on an item whatever the key. */
  lemma ChooseMoves<T>(items: seq<T>, s: Chooser, k: Key)
    requires s.nlines == |items| && s.curline < |items|
    ensures var r := Choose(items, s, k);
      r.s.curline < |items| && r.s.nlines == s.nlines &&
      (k == Up ==> r.handled && r.s.curline == (if s.curline == 0 then 0 else s.curline - 1)) &&
      (k == Down ==> r.handled && r.s.curline == (if s.curline + 1 == |items| then s.curline else s.curline + 1)) &&
      (k != Up && k != Down ==> r.s.curline == s.curline)
  {
  }

  /** ENTER hands over the current item and ESC/^C nothing; both set done. */
  lemma ChooseFinish<T>(items: seq<T>, s: Chooser, k: Key)
    requires s.nlines == |items| && s.curline < |items| && (k == Enter || k == Cancel)
    ensures var r := Choose(items, s, k);
      r.handled && r.s.done && r.s.curline == s.curline &&
      r.handover == (if k == Enter then Accepted(items[s.curline]) else Cancelled)
  {
  }

  /** Any other key is not handled and changes nothing. */
  lemma ChooseOther<T>(items: seq<T>, s: Chooser, k: Key)
    requires s.nlines == |items| && s.curline < |items| && k !in {Enter, Cancel, Up, Down}
    ensures var r := Choose(items, s, k); !r.handled && r.s == s && r.handover == NoHandover
  {
  }

  /** The first loop of `__init__`: the width of the widest label. */
  method MaxWidth(labels: seq<string>) returns (maxwidth: nat)
    ensures maxwidth == Longest(labels, |labels|)
  {
    maxwidth := 0;
    for i := 0 to |labels|
      invariant maxwidth == Longest(labels, i)
    {
      if |labels[i]| > maxwidth {
        maxwidth := |labels[i]|;
      }
    }
  }

  class PopupList<T> {
    const items: seq<T>
    /** `str()` of each item. */
    const labels: seq<string>
    const nlines: nat
    const maxwidth: nat
    /** The column window the items are drawn in. */
    const w: FlexScrollColumn.Column
    var curline: nat
    var done: bool

    function Model(): Chooser
      reads this
    {
      Chooser(nlines, curline, done)
    }

    /** One item per line of the column window, each a single field as
        wide as the widest label, and the current line on an item. */
    predicate Valid()
      reads this, w, w.pad
    {
      w.Valid() && w.ncols == maxwidth && |labels| == |items| && nlines == |items| && nlines >= 1 &&
      curline < nlines && maxwidth == Longest(labels, |labels|) &&
      w.Model() == ListTable(labels, maxwidth, nlines)
    }

    /** `__init__(parent, y, x, list, curr)`: the items are placed one per
        line, the current line is the last item shown as curr, and it is
        highlighted.  An empty list makes `highlightColumn` raise, so the
        list is not empty. */
    constructor(items: seq<T>, labels: seq<string>, curr: string)
      requires |items| >= 1 && |labels| == |items|
      ensures Valid() && fresh(w) && fresh(w.pad)
      ensures this.items == items && this.labels == labels && !done
      ensures curline == LastMatch(labels, curr, |labels|)
      ensures Highlight(w.Model().colsizes[curline], 0, RIGHT) == Some(0)
      ensures var r := ListShown(labels, maxwidth, curline);
        w.pad.Model() == r.v && w.pad.surface == r.ops
    {
      var maxwidth := MaxWidth(labels);
      var col, line := LoadItems(labels, curr, maxwidth);
      this.items, this.labels, this.nlines, this.maxwidth, this.w := items, labels, |items|, maxwidth, col;
      curline, done := line, false;
      new;
      HighlightLoaded(w, labels, maxwidth, curline);
    }

    /** `handleChar(c)`: returns whether the key was recognised and what the
        done handler would be given.  A move unhighlights the old line and
        highlights the new one; the pad is refreshed in every case. */
    method HandleChar(c: string) returns (handled: bool, handover: Handover<T>)
      requires Valid()
      modifies this, w.pad
      ensures Valid()
      ensures var r := Choose(items, old(Model()), KeyOf(c));
        Model() == r.s && handled == r.handled && handover == r.handover
      ensures curline != old(curline) ==>
        var s := ShowCol(old(w.pad.Model()), maxwidth, [maxwidth], [labels[old(curline)]], old(curline), 0, NORMAL);
        var h := ShowCol(s.v, maxwidth, [maxwidth], [labels[curline]], curline, 0, STANDOUT);
        w.pad.Model() == h.v && w.pad.surface == old(w.pad.surface) + s.ops + h.ops + PadView.Refresh(h.v)
      ensures curline == old(curline) ==>
        w.pad.Model() == old(w.pad.Model()) && w.pad.surface == old(w.pad.surface) + PadView.Refresh(w.pad.Model())
    {
      var k := KeyOf(c);
      handled, handover := true, NoHandover;
      match k {
        case Enter =>
          done := true;
          handover := Accepted(items[curline]);
        case Cancel =>
          done := true;
          handover := Cancelled;
        case Up =>
          if curline > 0 {
            Move(curline - 1);
          }
        case Down =>
          if curline < nlines - 1 {
            Move(curline + 1);
          }
        case _ =>
          handled := false;
      }
      w.Refresh();
    }

    /** `unhighlightColumn` on the current line, the line changed to
        line, `highlightColumn` on it. */
    method Move(line: nat)
      requires Valid() && line < nlines && line != curline
      modifies this`curline, w.pad
      ensures Valid() && curline == line
      ensures var s := ShowCol(old(w.pad.Model()), maxwidth, [maxwidth], [labels[old(curline)]], old(curline), 0, NORMAL);
        var h := ShowCol(s.v, maxwidth, [maxwidth], [labels[curline]], curline, 0, STANDOUT);
        w.pad.Model() == h.v && w.pad.surface == old(w.pad.surface) + s.ops + h.ops
    {
      var _ := w.UnhighlightColumn(curline, 0);
      curline := line;
      var _ := w.HighlightColumn(curline, 0, RIGHT);
    }
  }

  /** `highlightColumn(self.curline, 0)` on the loaded column: the one
      field of the current line is found and shown standing out. */
  method HighlightLoaded(col: FlexScrollColumn.Column, labels: seq<string>, maxwidth: nat, line: nat)
    requires col.Valid() && col.ncols == maxwidth && line < |labels|
    requires col.Model() == ListTable(labels, maxwidth, |labels|)
    requires var d := ListPad(labels, maxwidth, |labels|, |labels|);
      col.pad.Model() == d.v && col.pad.surface == d.ops
    modifies col.pad
    ensures col.Valid()
    ensures Highlight(col.Model().colsizes[line], 0, RIGHT) == Some(0)
    ensures var r := ListShown(labels, maxwidth, line);
      col.pad.Model() == r.v && col.pad.surface == r.ops
  {
    assert col.Model().colsizes[line] == [maxwidth] && col.Model().cols[line] == [labels[line]];
    var _ := col.HighlightColumn(line, 0, RIGHT);
  }

  /** The second loop of `__init__`: each item's line and field, in list
      order, and the last item shown as curr. */
  method LoadItems(labels: seq<string>, curr: string, maxwidth: nat) returns (col: FlexScrollColumn.Column, line: nat)
    ensures fresh(col) && fresh(col.pad) && col.Valid() && col.ncols == maxwidth
    ensures col.Model() == ListTable(labels, maxwidth, |labels|)
    ensures var d := ListPad(labels, maxwidth, |labels|, |labels|);
      col.pad.Model() == d.v && col.pad.surface == d.ops
    ensures line == LastMatch(labels, curr, |labels|)
  {
    col := new FlexScrollColumn.Column(|labels|, maxwidth);
    line := 0;
    for i := 0 to |labels|
      invariant col.Valid() && col.ncols == maxwidth && fresh(col) && fresh(col.pad)
      invariant col.Model() == ListTable(labels, maxwidth, i)
      invariant col.pad.Model() == ListPad(labels, maxwidth, |labels|, i).v
      invariant col.pad.surface == ListPad(labels, maxwidth, |labels|, i).ops
      invariant line == LastMatch(labels, curr, i)
    {
      if labels[i] == curr {
        line := i;
      }
      AddItem(col, labels, maxwidth, |labels|, i);
    }
  }

  /** One turn of the constructor's loop: item i's line and field. */
  method AddItem(col: FlexScrollColumn.Column, labels: seq<string>, maxwidth: nat, n: nat, i: nat)
    requires col.Valid() && col.ncols == maxwidth && i < |labels|
    requires col.Model() == ListTable(labels, maxwidth, i)
    requires col.pad.Model() == ListPad(labels, maxwidth, n, i).v && col.pad.surface == ListPad(labels, maxwidth, n, i).ops
    modifies col, col.pad
    ensures col.Valid() && col.Model() == ListTable(labels, maxwidth, i + 1)
    ensures col.pad.Model() == ListPad(labels, maxwidth, n, i + 1).v && col.pad.surface == ListPad(labels, maxwidth, n, i + 1).ops
  {
    ghost var d := col.pad.Model();
    AddItemRow(col, labels, maxwidth, i);
    assert ListPad(labels, maxwidth, n, i + 1).v == PlaceItem(d, labels[i], maxwidth, i).v;
  }

  /** The column calls of one turn of the loop, with their effect on the
      pad. */
  method AddItemRow(col: FlexScrollColumn.Column, labels: seq<string>, maxwidth: nat, i: nat)
    requires col.Valid() && col.ncols == maxwidth && i < |labels|
    requires col.Model() == ListTable(labels, maxwidth, i)
    modifies col, col.pad
    ensures col.Valid() && col.Model() == ListTable(labels, maxwidth, i + 1)
    ensures i <= |old(col.pad.Model()).buf|
    ensures var p := PlaceItem(old(col.pad.Model()), labels[i], maxwidth, i);
      col.pad.Model() == p.v && col.pad.surface == old(col.pad.surface) + p.ops
  {
    ListTableStep(labels, maxwidth, i);
    ghost var d, s0 := col.pad.Model(), col.pad.surface;
    ghost var r1 := PadView.InsertLn(d, i, false);
    var _ := col.InsertLine(i, [maxwidth]);
    ghost var r2 := PadView.Addstr(r1.v, i, 0, FormatSpace(maxwidth), r1.v.curattr, false);
    var _ := col.SetColumn(i, 0, labels[i], None, false);
    ghost var r3 := ShowCol(r2.v, maxwidth, [maxwidth], [labels[i]], i, 0, NORMAL);
    assert col.pad.surface == s0 + r1.ops + r2.ops + r3.ops;
    AppendAssoc(s0, r1.ops, r2.ops, r3.ops);
  }

  lemma AppendAssoc<X>(s: seq<X>, a: seq<X>, b: seq<X>, c: seq<X>)
    ensures s + a + b + c == s + (a + b + c)
  {
  }
}
