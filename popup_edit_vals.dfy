/** The value-editing popup (`PopupEditVals`, identical in both packages of
    the repository): one line per value, each a right-justified label, ": "
    and a fixed-width value field with a one-character cursor.  The pure part
    (`Editor`, `HandleKey`) specifies the class `EditVals`; the callback
    `doneHandler` is replaced by the `Handover` a keystroke returns. */
module PopupEditVals {
  import opened Surface
  import opened Text
  import opened Keys

  /** The state `handleChar` works on: the edited values, the cursor and the
      done flag, with the layout constants fixed by the constructor. */
  datatype Editor = Editor(values: seq<string>, nlines: nat, valcol: nat, valsize: nat,
                           curline: nat, curcol: nat, done: bool)

  /** The effect of one keystroke: the new state, `handleChar`'s return
      value, the handover and the writes to the popup's window. */
  datatype Reply = Reply(e: Editor, handled: bool, handover: Handover<seq<string>>, ops: seq<Op>)

  /** One value per line, each exactly `valsize` wide, and the cursor on a
      character of a value. */
  predicate ValidEditor(e: Editor)
  {
    e.nlines == |e.values| && e.nlines >= 1 && e.valsize >= 1 &&
    AllWide(e.values, e.valsize) &&
    e.curline < e.nlines && e.curcol < e.valsize
  }

  /** Every value is n characters wide. */
  predicate AllWide(values: seq<string>, n: nat)
  {
    forall i :: 0 <= i < |values| ==> |values[i]| == n
  }

  /** `_setCursor` (STANDOUT) and `_clearCursor` (plain): the character under
      the cursor drawn again. */
  function CursorOp(e: Editor, at: Attr): Op
    requires ValidEditor(e)
  {
    Write(e.curline, e.curcol + e.valcol, [e.values[e.curline][e.curcol]], at)
  }

  /** Deleting the character at k: the tail moves left and a space fills the
      end. */
  function DeleteAt(v: string, k: nat): string
    requires k < |v|
  {
    v[..k] + v[k + 1..] + " "
  }

  /** Overwriting the character at k with c. */
  function Overwrite(v: string, k: nat, c: char): string
    requires k < |v|
  {
    v[..k] + [c] + v[k + 1..]
  }

  /** A cursor move: the cursor is cleared, moved, and set again. */
  function CursorMove(e: Editor, e': Editor): Reply
    requires ValidEditor(e) && ValidEditor(e')
  {
    Reply(e', true, NoHandover, [CursorOp(e, NORMAL), CursorOp(e', STANDOUT), RefreshWindow])
  }

  /** `handleChar` for the key k. */
  function HandleKey(e: Editor, k: Key): Reply
    requires ValidEditor(e)
  {
    match k
    case Enter => Reply(e.(done := true), true, Accepted(e.values), [RefreshWindow])
    case Cancel => Reply(e.(done := true), true, Cancelled, [RefreshWindow])
    case Up =>
      if e.curline > 0 then CursorMove(e, e.(curline := e.curline - 1))
      else Reply(e, true, NoHandover, [RefreshWindow])
    case Down =>
      if e.curline < e.nlines - 1 then CursorMove(e, e.(curline := e.curline + 1))
      else Reply(e, true, NoHandover, [RefreshWindow])
    case Left =>
      if e.curcol > 0 then CursorMove(e, e.(curcol := e.curcol - 1))
      else Reply(e, true, NoHandover, [RefreshWindow])
    case Right =>
      if e.curcol < e.valsize - 1 then CursorMove(e, e.(curcol := e.curcol + 1))
      else Reply(e, true, NoHandover, [RefreshWindow])
    case Backspace => DeleteKey(e, true)
    case Del => DeleteKey(e, false)
    case Char(ch) =>
      var v := Overwrite(e.values[e.curline], e.curcol, ch);
      var e1 := e.(values := e.values[e.curline := v]);
      var e2 := if e.curcol < e.valsize - 1 then e1.(curcol := e.curcol + 1) else e1;
      Reply(e2, true, NoHandover, [CursorOp(e1, NORMAL), CursorOp(e2, STANDOUT), RefreshWindow])
    case _ => Reply(e, false, NoHandover, [RefreshWindow])
  }

  /** The BACKSPACE (back) and DEL branches: unless BACKSPACE is on column
      0, the cursor moves left for BACKSPACE and the character under it is
      deleted. */
  function DeleteKey(e: Editor, back: bool): Reply
    requires ValidEditor(e)
  {
    var mincol := if back then 1 else 0;
    if e.curcol >= mincol then
      var k := if back then e.curcol - 1 else e.curcol;
      var v := DeleteAt(e.values[e.curline], k);
      var e' := e.(values := e.values[e.curline := v], curcol := k);
      Reply(e', true, NoHandover,
            [CursorOp(e, NORMAL), Write(e.curline, k + e.valcol, v[k..], NORMAL),
             CursorOp(e', STANDOUT), RefreshWindow])
    else Reply(e, true, NoHandover, [RefreshWindow])
  }

  /** Every keystroke keeps the values `valsize` wide and the cursor on the
      field; the layout never changes. */
  lemma HandleKeyValid(e: Editor, k: Key)
    requires ValidEditor(e)
    ensures var r := HandleKey(e, k);
      ValidEditor(r.e) && r.e.nlines == e.nlines && r.e.valsize == e.valsize && r.e.valcol == e.valcol
  {
    var v := e.values[e.curline];
    match k {
      case Char(ch) =>
        ReplaceValue(e.values, e.curline, Overwrite(v, e.curcol, ch), e.valsize);
      case Backspace =>
        if e.curcol >= 1 {
          ReplaceValue(e.values, e.curline, DeleteAt(v, e.curcol - 1), e.valsize);
        }
      case Del =>
        ReplaceValue(e.values, e.curline, DeleteAt(v, e.curcol), e.valsize);
      case _ =>
    }
  }

  /** Replacing a value by one of the same width keeps all values that
      wide. */
  lemma ReplaceValue(values: seq<string>, line: nat, w: string, n: nat)
    requires line < |values| && |w| == n && AllWide(values, n)
    ensures AllWide(values[line := w], n)
  {
  }

  /** ENTER and ESC/^C end the edit: done is set, the values and cursor
      stay, and the handover is the values or the cancellation. */
  lemma FinishKeys(e: Editor, k: Key)
    requires ValidEditor(e) && (k == Enter || k == Cancel)
    ensures var r := HandleKey(e, k);
      r.handled && r.e.done && r.e.values == e.values &&
      r.e.curline == e.curline && r.e.curcol == e.curcol &&
      r.handover == (if k == Enter then Accepted(e.values) else Cancelled)
  {
  }

  /** The arrows move the cursor by one place unless it is at the edge of
      the field, and change nothing else. */
  lemma ArrowKeys(e: Editor, k: Key)
    requires ValidEditor(e) && (k == Up || k == Down || k == Left || k == Right)
    ensures var r := HandleKey(e, k);
      r.handled && r.handover == NoHandover && r.e.values == e.values && r.e.done == e.done &&
      (k == Up ==> r.e.curcol == e.curcol && r.e.curline == (if e.curline > 0 then e.curline - 1 else 0)) &&
      (k == Down ==> (r.e.curcol == e.curcol &&
         r.e.curline == (if e.curline + 1 < e.nlines then e.curline + 1 else e.curline))) &&
      (k == Left ==> r.e.curline == e.curline && r.e.curcol == (if e.curcol > 0 then e.curcol - 1 else 0)) &&
      (k == Right ==> (r.e.curline == e.curline &&
         r.e.curcol == (if e.curcol + 1 < e.valsize then e.curcol + 1 else e.curcol)))
  {
  }

  /** An ordinary character replaces the one under the cursor, touches no
      other character or line, and the cursor advances unless it is on the
      last column. */
  lemma TypeChar(e: Editor, ch: char)
    requires ValidEditor(e)
    ensures var r := HandleKey(e, Char(ch));
      var v, w := e.values[e.curline], r.e.values[e.curline];
      r.handled && r.handover == NoHandover && r.e.done == e.done && r.e.curline == e.curline &&
      |w| == |v| && w[e.curcol] == ch &&
      (forall j :: 0 <= j < |v| && j != e.curcol ==> w[j] == v[j]) &&
      (forall i :: 0 <= i < |e.values| && i != e.curline ==> r.e.values[i] == e.values[i]) &&
      r.e.curcol == (if e.curcol + 1 < e.valsize then e.curcol + 1 else e.curcol)
  {
    var v := e.values[e.curline];
    var w := Overwrite(v, e.curcol, ch);
    assert forall j :: 0 <= j < e.curcol ==> w[j] == v[j];
    assert forall j :: e.curcol < j < |v| ==> w[j] == v[j];
  }

  /** BACKSPACE/^H on column 0 changes nothing. */
  lemma BackspaceAtStart(e: Editor)
    requires ValidEditor(e) && e.curcol == 0
    ensures var r := HandleKey(e, Backspace); r.handled && r.e == e && r.handover == NoHandover
  {
  }

  /** BACKSPACE/^H elsewhere deletes the character left of the cursor and
      moves onto its place; DEL/DC deletes the character under the cursor.
      Either way the tail of the value moves left by one and a space enters
      at the end; no other line changes. */
  lemma DeleteEffect(e: Editor, k: Key)
    requires ValidEditor(e) && (k == Del || (k == Backspace && e.curcol > 0))
    ensures var r := HandleKey(e, k);
      var p := if k == Backspace then e.curcol - 1 else e.curcol;
      var v, w := e.values[e.curline], r.e.values[e.curline];
      r.handled && r.handover == NoHandover && r.e.done == e.done &&
      r.e.curline == e.curline && r.e.curcol == p &&
      |w| == |v| && w[|v| - 1] == ' ' &&
      (forall j :: 0 <= j < p ==> w[j] == v[j]) &&
      (forall j :: p <= j < |v| - 1 ==> w[j] == v[j + 1]) &&
      (forall i :: 0 <= i < |e.values| && i != e.curline ==> r.e.values[i] == e.values[i])
  {
    var p := if k == Backspace then e.curcol - 1 else e.curcol;
    var v := e.values[e.curline];
    var w := DeleteAt(v, p);
    assert forall j :: 0 <= j < p ==> w[j] == v[j];
    assert forall j :: p <= j < |v| - 1 ==> w[j] == v[j + 1];
  }

  /** A key name `handleChar` does not know (NPAGE and PPAGE among them)
      is not handled and changes nothing. */
  lemma UnknownKey(e: Editor, k: Key)
    requires ValidEditor(e) && (k == Other || k == PageDown || k == PageUp)
    ensures var r := HandleKey(e, k); !r.handled && r.e == e && r.handover == NoHandover
  {
  }

  /** The labels of the entries. */
  function Labels(info: seq<(string, string)>): (ls: seq<string>)
    ensures |ls| == |info| && forall i :: 0 <= i < |info| ==> ls[i] == info[i].0
  {
    seq(|info|, i requires 0 <= i < |info| => info[i].0)
  }

  /** A label right-justified to the width m. */
  function JustifyLabel(l: string, m: nat): string
  {
    if |l| < m then FormatSpace(m - |l|) + l else l
  }

  /** A label no longer than m becomes exactly m wide: spaces, then the
      label. */
  lemma JustifyLabelEffect(l: string, m: nat)
    requires |l| <= m
    ensures var r := JustifyLabel(l, m);
      |r| == m && r[m - |l|..] == l && forall j :: 0 <= j < m - |l| ==> r[j] == ' '
  {
  }

  /** An initial value made exactly `valsize` wide. */
  function PadValue(v: string, valsize: nat): string
  {
    if |v| < valsize then v + FormatSpace(valsize - |v|) else v[..valsize]
  }

  /** The value is cut to `valsize` characters, or extended with spaces to
      them. */
  lemma PadValueEffect(v: string, valsize: nat)
    ensures var r := PadValue(v, valsize);
      |r| == valsize && r[..Min(|v|, valsize)] == v[..Min(|v|, valsize)] &&
      forall j :: |v| <= j < valsize ==> r[j] == ' '
  {
    if |v| < valsize {
      var r := PadValue(v, valsize);
      assert r[..|v|] == v;
      assert forall j :: |v| <= j < valsize ==> r[j] == FormatSpace(valsize - |v|)[j - |v|];
    }
  }

  /** The line the constructor writes for an entry. */
  function EntryLine(i: (string, string), m: nat, valsize: nat): string
  {
    JustifyLabel(i.0, m) + ": " + PadValue(i.1, valsize)
  }

  /** The writes of the constructor's first `k` lines. */
  function LineOps(lines: seq<string>, k: nat): (ops: seq<Op>)
    requires k <= |lines|
  {
    if k == 0 then [] else LineOps(lines, k - 1) + [Write(k - 1, 0, lines[k - 1], NORMAL)]
  }

  /** The lines the constructor writes. */
  function EntryLines(info: seq<(string, string)>, valsize: nat): seq<string>
  {
    seq(|info|, j requires 0 <= j < |info| => EntryLine(info[j], Longest(Labels(info), |info|), valsize))
  }

  /** The state `__init__` leaves. */
  function Init(info: seq<(string, string)>, valsize: nat): Editor
  {
    Editor(seq(|info|, j requires 0 <= j < |info| => PadValue(info[j].1, valsize)), |info|,
           Longest(Labels(info), |info|) + 2, valsize, 0, 0, false)
  }

  /** The constructed popup is valid, holds the padded values, and its
      value column starts two places after the longest label. */
  lemma InitValid(info: seq<(string, string)>, valsize: nat)
    requires |info| >= 1 && valsize >= 1
    ensures var e := Init(info, valsize);
      ValidEditor(e) && e.valcol == Longest(Labels(info), |info|) + 2 && !e.done &&
      forall i :: 0 <= i < |info| ==> e.values[i] == PadValue(info[i].1, valsize)
  {
    forall i | 0 <= i < |info| {
      PadValueEffect(info[i].1, valsize);
    }
  }

  /** Each line the constructor writes is the label right-justified to the
      longest label, ": ", and the value; so the value starts at `valcol`
      and the line is one column short of the window's width. */
  lemma EntryLineLayout(info: seq<(string, string)>, i: nat, valsize: nat)
    requires i < |info|
    ensures var m := Longest(Labels(info), |info|);
      var l := EntryLine(info[i], m, valsize);
      |l| == m + 2 + valsize && l[m - |info[i].0|..m] == info[i].0 && l[m..m + 2] == ": " &&
      l[m + 2..] == PadValue(info[i].1, valsize)
  {
    var m := Longest(Labels(info), |info|);
    LongestIsMax(Labels(info), |info|);
    JustifyLabelEffect(info[i].0, m);
    PadValueEffect(info[i].1, valsize);
    var j := JustifyLabel(info[i].0, m);
    var l := EntryLine(info[i], m, valsize);
    assert l[..m] == j;
  }

  /** The first loop of `__init__`: the length of the longest label. */
  method LongestLabel(info: seq<(string, string)>) returns (maxlabellen: nat)
    ensures maxlabellen == Longest(Labels(info), |info|)
  {
    maxlabellen := 0;
    for k := 0 to |info|
      invariant maxlabellen == Longest(Labels(info), k)
    {
      if |info[k].0| > maxlabellen {
        maxlabellen := |info[k].0|;
      }
    }
  }

  /** The second loop of `__init__`: each value made `valsize` wide, and the
      line shown for each entry. */
  method Entries(info: seq<(string, string)>, maxlabellen: nat, valsize: nat) returns (vals: seq<string>, lines: seq<string>)
    ensures |vals| == |info| && |lines| == |info|
    ensures forall j :: 0 <= j < |info| ==> vals[j] == PadValue(info[j].1, valsize)
    ensures forall j :: 0 <= j < |info| ==> lines[j] == EntryLine(info[j], maxlabellen, valsize)
  {
    lines, vals := [], [];
    for k := 0 to |info|
      invariant |vals| == k && |lines| == k
      invariant forall j :: 0 <= j < k ==> vals[j] == PadValue(info[j].1, valsize)
      invariant forall j :: 0 <= j < k ==> lines[j] == EntryLine(info[j], maxlabellen, valsize)
    {
      var l := info[k].0;
      if |l| < maxlabellen {
        l := FormatSpace(maxlabellen - |l|) + l;
      }
      var v;
      if |info[k].1| < valsize {
        v := info[k].1 + FormatSpace(valsize - |info[k].1|);
      } else {
        v := info[k].1[..valsize];
      }
      vals := vals + [v];
      lines := lines + [l + ": " + v];
    }
  }

  /** The third loop of `__init__`: line i written at row i, column 0. */
  method WriteLines(lines: seq<string>) returns (ops: seq<Op>)
    ensures ops == LineOps(lines, |lines|)
  {
    ops := [];
    for i := 0 to |lines|
      invariant ops == LineOps(lines, i)
    {
      ops := ops + [Write(i, 0, lines[i], NORMAL)];
    }
  }

  /** The computations of `__init__`: the values, the longest label and
      the writes of the lines. */
  method Layout(info: seq<(string, string)>, valsize: nat) returns (vals: seq<string>, maxlabellen: nat, ops: seq<Op>)
    requires |info| >= 1 && valsize >= 1
    ensures Editor(vals, |info|, maxlabellen + 2, valsize, 0, 0, false) == Init(info, valsize)
    ensures ValidEditor(Init(info, valsize)) && maxlabellen == Longest(Labels(info), |info|)
    ensures ops == LineOps(EntryLines(info, valsize), |info|)
  {
    maxlabellen := LongestLabel(info);
    var lines;
    vals, lines := Entries(info, maxlabellen, valsize);
    ops := WriteLines(lines);
    assert lines == EntryLines(info, valsize);
    assert vals == Init(info, valsize).values;
    InitValid(info, valsize);
  }

  /** The popup: the fields `handleChar` updates, the layout, and the log of
      writes to its window `w` (the border window is not modelled). */
  class EditVals {
    var values: seq<string>
    const nlines: nat
    const valcol: nat
    const valsize: nat
    /** The window's width. */
    const ncols: nat
    var curline: nat
    var curcol: nat
    var done: bool
    var surface: seq<Op>

    function Model(): Editor
      reads this
    {
      Editor(values, nlines, valcol, valsize, curline, curcol, done)
    }

    predicate Valid()
      reads this
    {
      ValidEditor(Model())
    }

    /** `__init__(parent, y, x, info, valsize)`: the labels and values are
        laid out, written, and the cursor set on the first character.  An
        empty `info` or a zero `valsize` makes `_setCursor` index past the
        end, so both are excluded. */
    constructor(info: seq<(string, string)>, valsize: nat)
      requires |info| >= 1 && valsize >= 1
      ensures Valid() && Model() == Init(info, valsize)
      ensures ncols == Longest(Labels(info), |info|) + 3 + valsize
      ensures surface == LineOps(EntryLines(info, valsize), |info|) +
                         [Write(0, valcol, [values[0][0]], STANDOUT)]
    {
      var vals, maxlabellen, ops := Layout(info, valsize);
      this.values := vals;
      this.nlines := |info|;
      this.valcol := maxlabellen + 2;
      this.valsize := valsize;
      this.ncols := maxlabellen + 3 + valsize;
      curline, curcol, done := 0, 0, false;
      new;
      surface := ops + [Write(curline, curcol + valcol, [values[curline][curcol]], STANDOUT)];
    }

    /** `_setCursor` / `_clearCursor`. */
    method DrawCursor(at: Attr)
      requires Valid()
      modifies this`surface
      ensures surface == old(surface) + [CursorOp(Model(), at)]
    {
      surface := surface + [Write(curline, curcol + valcol, [values[curline][curcol]], at)];
    }

    /** `handleChar(c)`: returns whether the key was recognised and what the
        done handler would be given. */
    method HandleChar(c: string) returns (handled: bool, handover: Handover<seq<string>>)
      requires Valid()
      modifies this
      ensures Valid()
      ensures var r := HandleKey(old(Model()), KeyOf(c));
        Model() == r.e && handled == r.handled && handover == r.handover && surface == old(surface) + r.ops
    {
      var k := KeyOf(c);
      handled, handover := true, NoHandover;
      match k {
        case Enter => handover := Finish(true);
        case Cancel => handover := Finish(false);
        case Up => Arrow(k);
        case Down => Arrow(k);
        case Left => Arrow(k);
        case Right => Arrow(k);
        case Backspace => Delete(true);
        case Del => Delete(false);
        case Char(ch) => Type(ch);
        case _ => handled := false;
      }
      surface := surface + [RefreshWindow];
    }

    /** The ENTER (accept) and ESC/^C branches of `handleChar`. */
    method Finish(accept: bool) returns (handover: Handover<seq<string>>)
      requires Valid()
      modifies this`done
      ensures Valid()
      ensures var r := HandleKey(old(Model()), if accept then Enter else Cancel);
        Model() == r.e && handover == r.handover && [RefreshWindow] == r.ops
    {
      done := true;
      handover := if accept then Accepted(values) else Cancelled;
    }

    /** The UP, DOWN, LEFT and RIGHT branches of `handleChar`, without the
        final refresh. */
    method Arrow(k: Key)
      requires Valid() && (k == Up || k == Down || k == Left || k == Right)
      modifies this`curline, this`curcol, this`surface
      ensures Valid()
      ensures var r := HandleKey(old(Model()), k);
        Model() == r.e && surface + [RefreshWindow] == old(surface) + r.ops
    {
      if k == Up && curline > 0 {
        MoveTo(curline - 1, curcol);
      } else if k == Down && curline < nlines - 1 {
        MoveTo(curline + 1, curcol);
      } else if k == Left && curcol > 0 {
        MoveTo(curline, curcol - 1);
      } else if k == Right && curcol < valsize - 1 {
        MoveTo(curline, curcol + 1);
      }
    }

    /** `_clearCursor`, the cursor moved, `_setCursor`. */
    method MoveTo(line: nat, col: nat)
      requires Valid() && line < nlines && col < valsize
      modifies this`curline, this`curcol, this`surface
      ensures Valid() && Model() == old(Model()).(curline := line, curcol := col)
      ensures surface + [RefreshWindow] == old(surface) + CursorMove(old(Model()), Model()).ops
    {
      DrawCursor(NORMAL);
      curline, curcol := line, col;
      DrawCursor(STANDOUT);
    }

    /** The BACKSPACE/^H (back) and DEL/DC branches of `handleChar`, without
        the final refresh. */
    method Delete(back: bool)
      requires Valid()
      modifies this
      ensures Valid()
      ensures var r := DeleteKey(old(Model()), back);
        Model() == r.e && surface + [RefreshWindow] == old(surface) + r.ops
    {
      var mincol := if back then 1 else 0;
      if curcol >= mincol {
        DrawCursor(NORMAL);
        if back {
          curcol := curcol - 1;
        }
        var v := values[curline];
        v := v[0..curcol] + v[curcol + 1..] + " ";
        ReplaceValue(values, curline, v, valsize);
        values := values[curline := v];
        surface := surface + [Write(curline, curcol + valcol, values[curline][curcol..], NORMAL)];
        DrawCursor(STANDOUT);
      }
    }

    /** The branch of `handleChar` for an ordinary character, without the
        final refresh. */
    method Type(ch: char)
      requires Valid()
      modifies this
      ensures Valid()
      ensures var r := HandleKey(old(Model()), Char(ch));
        Model() == r.e && surface + [RefreshWindow] == old(surface) + r.ops
    {
      var v := values[curline];
      v := v[0..curcol] + [ch] + v[curcol + 1..];
      ReplaceValue(values, curline, v, valsize);
      values := values[curline := v];
      DrawCursor(NORMAL);
      if curcol < valsize - 1 {
        curcol := curcol + 1;
      }
      DrawCursor(STANDOUT);
    }
  }
}
