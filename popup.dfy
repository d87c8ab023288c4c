/** The message popup (`Popup`): a text broken into lines that fit the
    window (`_breakupLine`), shown on a `FlexScrollPad` that the arrow and
    page keys scroll.  The callbacks are replaced by parameters: the answer
    of `charHandler` is passed in, and whether `doneHandler` is called is
    returned. */
module Popup {
  import opened Wrappers
  import opened Surface
  import opened Text
  import PadProps
  import PadView
  import FlexScrollPad

  // ---------------------------------------------------------------------
  // `_breakupLine`

  /** Stripped text: empty, or beginning and ending with a character that
      is not white space. */
  predicate Stripped(s: string)
  {
    s == [] || (!IsSpace(s[0]) && !IsSpace(s[|s| - 1]))
  }

  lemma StripStripped(s: string)
    ensures Stripped(Strip(s))
  {
    var l := StripLeft(s);
    var r := StripRight(l);
    StripRightPrefix(l);
    if r != [] {
      assert r[0] == l[0];
    }
  }

  /** The first index from k on that holds a character other than white
      space, or |s|. */
  function FirstSolid(s: string, k: nat): (r: nat)
    requires k <= |s|
    ensures k <= r <= |s| && (r < |s| ==> !IsSpace(s[r]))
    decreases |s| - k
  {
    if k == |s| || !IsSpace(s[k]) then k else FirstSolid(s, k + 1)
  }

  /** Everything between k and `FirstSolid` is white space. */
  lemma {:induction false} FirstSolidSpaces(s: string, k: nat)
    requires k <= |s|
    ensures forall j :: k <= j < FirstSolid(s, k) ==> IsSpace(s[j])
    decreases |s| - k
  {
    if k < |s| && IsSpace(s[k]) {
      FirstSolidSpaces(s, k + 1);
    }
  }

  /** `lastspace` after the characters before i: the last index of white
      space before i, or 0 when there is none. */
  function LastSpace(s: string, i: nat): (r: nat)
    requires i <= |s|
    ensures (r < i || r == 0) && (r > 0 ==> IsSpace(s[r]))
  {
    if i == 0 then 0 else if IsSpace(s[i - 1]) then i - 1 else LastSpace(s, i - 1)
  }

  /** No white space comes after `LastSpace` before i, nor (but at index 0)
      before i when it is 0. */
  lemma {:induction false} LastSpaceLast(s: string, i: nat)
    requires i <= |s|
    ensures forall j :: LastSpace(s, i) < j < i ==> !IsSpace(s[j])
  {
    if i > 0 && !IsSpace(s[i - 1]) {
      LastSpaceLast(s, i - 1);
    }
  }

  /** Where a text longer than the window is cut: at the last white space
      before the first character (not white space) from column ncols on,
      or right before that character when there is no such white space. */
  function Cut(s: string, ncols: nat): (c: nat)
    requires 1 <= ncols < |s|
    ensures 0 < c <= |s|
  {
    var i := FirstSolid(s, ncols);
    var ls := LastSpace(s, i);
    if ls > 0 then ls else i
  }

  /** The lines `_breakupLine` makes of the stripped text s. */
  function Wrap(s: string, ncols: nat): seq<string>
    requires ncols >= 1
    decreases |s|
  {
    if |s| <= ncols then (if |s| > 0 then [s] else [])
    else
      var c := Cut(s, ncols);
      [s[..c]] + Wrap(Strip(s[c..]), ncols)
  }

  /** `_breakupLine(s, ncols)`. */
  function BreakUp(s: string, ncols: nat): seq<string>
    requires ncols >= 1
  {
    Wrap(Strip(s), ncols)
  }

  /** The text of the lines, one after the other. */
  function Concat(lines: seq<string>): string
  {
    if lines == [] then [] else lines[0] + Concat(lines[1..])
  }

  /** A stripped text longer than the window keeps its last character
      after the cut. */
  lemma CutInside(s: string, ncols: nat)
    requires Stripped(s) && 1 <= ncols < |s|
    ensures Cut(s, ncols) < |s| && Strip(s[Cut(s, ncols)..]) != []
  {
    var i := FirstSolid(s, ncols);
    assert !IsSpace(s[|s| - 1]);
    FirstSolidSpaces(s, ncols);
    assert i < |s|;
    var c := Cut(s, ncols);
    var t := s[c..];
    assert !IsSpace(t[|t| - 1]);
    StripNonBlank(t);
  }

  /** A text with a character that is not white space does not strip to
      nothing. */
  lemma StripNonBlank(t: string)
    requires t != [] && !IsSpace(t[|t| - 1])
    ensures Strip(t) != []
  {
    StripLeftSpaces(t);
    var l := StripLeft(t);
    StripLeftSuffix(t);
    assert l != [];
    assert l[|l| - 1] == t[|t| - 1];
  }

  /** `_breakupLine` of an empty or white-space-only text is empty, and
      only of such a text. */
  lemma BreakUpEmpty(s: string, ncols: nat)
    requires ncols >= 1
    ensures BreakUp(s, ncols) == [] <==> forall i :: 0 <= i < |s| ==> IsSpace(s[i])
  {
    var l := StripLeft(s);
    StripLeftSpaces(s);
    StripRightSpaces(l);
    StripLeftSuffix(s);
    assert (l == []) == (forall i :: 0 <= i < |s| ==> IsSpace(s[i])) by {
      if l != [] {
        assert l[0] == s[|s| - |l|];
      }
    }
    assert (Strip(s) == []) == (l == []) by {
      if l != [] {
        assert !IsSpace(l[0]);
      }
    }
  }

  /** Every line `_breakupLine` makes is non-empty and begins with a
      character that is not white space. */
  lemma {:induction false} WrapLines(s: string, ncols: nat)
    requires ncols >= 1 && Stripped(s)
    ensures forall k :: 0 <= k < |Wrap(s, ncols)| ==>
      Wrap(s, ncols)[k] != [] && !IsSpace(Wrap(s, ncols)[k][0])
    decreases |s|
  {
    if |s| > ncols {
      var c := Cut(s, ncols);
      var rest := Strip(s[c..]);
      StripStripped(s[c..]);
      WrapLines(rest, ncols);
      assert Wrap(s, ncols) == [s[..c]] + Wrap(rest, ncols);
    }
  }

  /** No character other than white space is lost, added or reordered:
      the lines hold the text's other characters in order. */
  lemma {:induction false} WrapKeepsText(s: string, ncols: nat)
    requires ncols >= 1
    ensures RemoveSpaces(Concat(Wrap(s, ncols))) == RemoveSpaces(s)
    decreases |s|
  {
    if |s| > ncols {
      var c := Cut(s, ncols);
      var rest := Wrap(Strip(s[c..]), ncols);
      WrapKeepsText(Strip(s[c..]), ncols);
      ConcatCons(s[..c], rest);
      CutKeepsText(s, c, Concat(rest));
    } else if |s| > 0 {
      ConcatCons(s, []);
      assert [s] + [] == [s] && s + [] == s;
    }
  }

  /** A text cut at c, its rest stripped. */
  lemma {:induction false} CutKeepsText(s: string, c: nat, tail: string)
    requires c <= |s| && RemoveSpaces(tail) == RemoveSpaces(Strip(s[c..]))
    ensures RemoveSpaces(s[..c] + tail) == RemoveSpaces(s)
  {
    var a, b := s[..c], s[c..];
    assert a + b == s;
    RemoveSpacesConcat(a, tail);
    StripKeepsNonSpace(b);
    RemoveSpacesConcat(a, b);
  }

  lemma ConcatCons(a: string, rest: seq<string>)
    ensures Concat([a] + rest) == a + Concat(rest)
  {
    assert ([a] + rest)[1..] == rest;
  }

  /** The same for `_breakupLine`, which strips first. */
  lemma BreakUpKeepsText(s: string, ncols: nat)
    requires ncols >= 1
    ensures RemoveSpaces(Concat(BreakUp(s, ncols))) == RemoveSpaces(s)
  {
    WrapKeepsText(Strip(s), ncols);
    StripKeepsNonSpace(s);
  }

  /** The first line of a text longer than the window: without its
      trailing white space it fits the window, and when the first ncols + 1
      characters hold no white space it is exactly the first ncols
      characters (the forced split). */
  lemma CutFits(s: string, ncols: nat)
    requires Stripped(s) && 1 <= ncols < |s|
    ensures |StripRight(s[..Cut(s, ncols)])| <= ncols
    ensures (forall j :: 0 <= j <= ncols ==> !IsSpace(s[j])) ==> Cut(s, ncols) == ncols
  {
    var i := FirstSolid(s, ncols);
    var ls := LastSpace(s, i);
    FirstSolidSpaces(s, ncols);
    LastSpaceLast(s, i);
    var c := Cut(s, ncols);
    if i > ncols {
      assert IsSpace(s[ncols]);
      assert ls >= ncols;
    }
    if ls > ncols {
      TrailingSpaces(s[..c], ncols);
    }
    if forall j :: 0 <= j <= ncols ==> !IsSpace(s[j]) {
      assert i == ncols;
    }
  }

  /** A text that is white space from n on loses all of it to rstrip. */
  lemma TrailingSpaces(t: string, n: nat)
    requires forall j :: n <= j < |t| ==> IsSpace(t[j])
    ensures |StripRight(t)| <= n
  {
    var r := StripRight(t);
    StripRightPrefix(t);
    if r != [] {
      assert r[|r| - 1] == t[|r| - 1];
    }
  }

  /** Every line `_breakupLine` makes fits the window once its trailing
      white space is removed; the last line fits as it is. */
  lemma {:induction false} WrapWidth(s: string, ncols: nat)
    requires ncols >= 1 && Stripped(s)
    ensures var w := Wrap(s, ncols);
      (forall k :: 0 <= k < |w| ==> |StripRight(w[k])| <= ncols) &&
      (w != [] ==> |w[|w| - 1]| <= ncols)
    decreases |s|
  {
    var w := Wrap(s, ncols);
    if |s| > ncols {
      var c := Cut(s, ncols);
      var rest := Strip(s[c..]);
      StripStripped(s[c..]);
      CutFits(s, ncols);
      CutInside(s, ncols);
      WrapWidth(rest, ncols);
      assert w == [s[..c]] + Wrap(rest, ncols);
      assert Wrap(rest, ncols) != [];
    } else if |s| > 0 {
      assert StripRight(s) == s[..|StripRight(s)|];
    }
  }

  /** `_breakupLine(s, ncols)`: strip, then cut off one line at a time
      until what is left fits.  The loop ends only for ncols >= 1, which
      is therefore required. */
  method BreakupLine(s: string, ncols: nat) returns (lines: seq<string>)
    requires ncols >= 1
    ensures lines == BreakUp(s, ncols)
  {
    lines := [];
    var t := Strip(s);
    StripStripped(s);
    while |t| > ncols
      invariant Remaining(s, ncols, lines, t)
      decreases |t|
    {
      var lastspace, i := CutAt(t, ncols);
      var c := if lastspace > 0 then lastspace else i;
      WrapStep(s, ncols, lines, t, c);
      lines := lines + [t[0..c]];
      t := Strip(t[c..]);
    }
    WrapDone(s, ncols, lines, t);
    if |t| > 0 {
      lines := lines + [t];
    }
  }

  /** The loop of `_breakupLine` has made `lines`, and t is left. */
  ghost predicate Remaining(s: string, ncols: nat, lines: seq<string>, t: string)
    requires ncols >= 1
  {
    Stripped(t) && lines + Wrap(t, ncols) == BreakUp(s, ncols)
  }

  /** One line cut off. */
  lemma WrapStep(s: string, ncols: nat, lines: seq<string>, t: string, c: nat)
    requires 1 <= ncols < |t| && Remaining(s, ncols, lines, t) && c == Cut(t, ncols)
    ensures Remaining(s, ncols, lines + [t[0..c]], Strip(t[c..])) && |Strip(t[c..])| < |t|
  {
    StripStripped(t[c..]);
    WrapCons(t, ncols);
    assert t[0..c] == t[..c];
    AppendCons(lines, t[..c], Wrap(Strip(t[c..]), ncols));
  }

  /** `Wrap` of a text longer than the window, unfolded once. */
  lemma WrapCons(t: string, ncols: nat)
    requires 1 <= ncols < |t|
    ensures Wrap(t, ncols) == [t[..Cut(t, ncols)]] + Wrap(Strip(t[Cut(t, ncols)..]), ncols)
  {
  }

  lemma AppendCons<T>(a: seq<T>, x: T, b: seq<T>)
    ensures a + ([x] + b) == (a + [x]) + b
  {
  }

  /** What is left fits. */
  lemma WrapDone(s: string, ncols: nat, lines: seq<string>, t: string)
    requires 1 <= ncols && |t| <= ncols && Remaining(s, ncols, lines, t)
    ensures BreakUp(s, ncols) == lines + (if |t| > 0 then [t] else [])
  {
  }

  /** The inner loop of `_breakupLine`: the characters are scanned up to the
      first one (not white space) from column ncols on, remembering the
      last white space. */
  method CutAt(t: string, ncols: nat) returns (lastspace: nat, i: nat)
    requires Stripped(t) && 1 <= ncols < |t|
    ensures i == FirstSolid(t, ncols) && lastspace == LastSpace(t, i)
  {
    lastspace, i := 0, 0;
    while IsSpace(t[i]) || i < ncols
      invariant i < |t| && lastspace == LastSpace(t, i)
      invariant i > ncols ==> FirstSolid(t, ncols) == FirstSolid(t, i)
      decreases |t| - i
    {
      if IsSpace(t[i]) {
        lastspace := i;
      }
      i := i + 1;
    }
  }

  // ---------------------------------------------------------------------
  // The popup

  /** `s.split("\n")` with every piece broken up to the window's inner
      width: the first k pieces. */
  function WrapAll(pieces: seq<string>, width: nat, k: nat): seq<string>
    requires width >= 1 && k <= |pieces|
  {
    if k == 0 then [] else WrapAll(pieces, width, k - 1) + BreakUp(pieces[k - 1], width)
  }

  /** The lines the constructor shows: the text reformatted to the inner
      width, or split at its line breaks only. */
  function PopupLines(s: string, ncols: nat, reformat: bool): seq<string>
    requires reformat ==> ncols >= 3
  {
    var pieces := Segments(s, 0);
    if reformat then WrapAll(pieces, ncols - 2, |pieces|) else pieces
  }

  /** Reformatting keeps every character of the text that is not white
      space (line breaks are white space), in order. */
  lemma PopupKeepsText(s: string, ncols: nat)
    requires ncols >= 3
    ensures RemoveSpaces(Concat(PopupLines(s, ncols, true))) == RemoveSpaces(s)
  {
    var pieces := Segments(s, 0);
    assert Join(pieces, '\n') == s by {
      JoinSegments(s, 0);
      assert s[0..] == s;
    }
    assert RemoveSpaces(Concat(WrapAll(pieces, ncols - 2, |pieces|))) == RemoveSpaces(Concat(pieces)) by {
      WrapAllKeepsText(pieces, ncols - 2, |pieces|);
      assert pieces[..|pieces|] == pieces;
    }
    JoinKeepsText(pieces);
  }

  lemma {:induction false} WrapAllKeepsText(pieces: seq<string>, width: nat, k: nat)
    requires width >= 1 && k <= |pieces|
    ensures RemoveSpaces(Concat(WrapAll(pieces, width, k))) == RemoveSpaces(Concat(pieces[..k]))
  {
    if k > 0 {
      WrapAllKeepsText(pieces, width, k - 1);
      BreakUpKeepsText(pieces[k - 1], width);
      ConcatPrefix(pieces, k);
      KeepAppend(WrapAll(pieces, width, k - 1), BreakUp(pieces[k - 1], width),
                 Concat(pieces[..k - 1]), pieces[k - 1]);
    }
  }

  lemma ConcatPrefix(pieces: seq<string>, k: nat)
    requires 0 < k <= |pieces|
    ensures Concat(pieces[..k]) == Concat(pieces[..k - 1]) + pieces[k - 1]
  {
    assert pieces[..k] == pieces[..k - 1] + [pieces[k - 1]];
    ConcatAppend(pieces[..k - 1], [pieces[k - 1]]);
    ConcatCons(pieces[k - 1], []);
  }

  lemma KeepAppend(a: seq<string>, b: seq<string>, x: string, y: string)
    requires RemoveSpaces(Concat(a)) == RemoveSpaces(x) && RemoveSpaces(Concat(b)) == RemoveSpaces(y)
    ensures RemoveSpaces(Concat(a + b)) == RemoveSpaces(x + y)
  {
    ConcatAppend(a, b);
    RemoveSpacesConcat(Concat(a), Concat(b));
    RemoveSpacesConcat(x, y);
  }

  lemma {:induction false} ConcatAppend(a: seq<string>, b: seq<string>)
    ensures Concat(a + b) == Concat(a) + Concat(b)
  {
    if a != [] {
      assert (a + b)[1..] == a[1..] + b;
      ConcatAppend(a[1..], b);
    } else {
      assert a + b == b;
    }
  }

  /** Joining with line breaks adds only white space. */
  lemma {:induction false} JoinKeepsText(pieces: seq<string>)
    requires |pieces| >= 1
    ensures RemoveSpaces(Join(pieces, '\n')) == RemoveSpaces(Concat(pieces))
    decreases |pieces|
  {
    if |pieces| > 1 {
      JoinKeepsText(pieces[1..]);
      RemoveSpacesConcat(pieces[0] + ['\n'], Join(pieces[1..], '\n'));
      RemoveSpacesConcat(pieces[0], ['\n']);
      RemoveSpacesConcat(pieces[0], Concat(pieces[1..]));
      assert ['\n'][1..] == [];
      assert RemoveSpaces(['\n']) == [];
    } else {
      assert pieces[1..] == [];
      assert Concat(pieces) == pieces[0] + Concat([]);
      assert pieces[0] + [] == pieces[0];
    }
  }

  /** The pad after `addstr(i, 0, lines[i])` for the first k lines. */
  function PutLines(v: PadView.View, lines: seq<string>, k: nat): (w: PadView.View)
    requires PadView.Valid(v) && k <= |lines|
    ensures PadView.Valid(w) && |w.buf| >= k
  {
    if k == 0 then v
    else
      var p := PutLines(v, lines, k - 1);
      AddstrReaches(p, k - 1, lines[k - 1]);
      PadView.Addstr(p, k - 1, 0, lines[k - 1], p.curattr, false).v
  }

  /** The window operations of those `addstr` calls, in order. */
  function DrawLines(v: PadView.View, lines: seq<string>, k: nat): seq<Op>
    requires PadView.Valid(v) && k <= |lines|
  {
    if k == 0 then []
    else
      var p := PutLines(v, lines, k - 1);
      DrawLines(v, lines, k - 1) + PadView.Addstr(p, k - 1, 0, lines[k - 1], p.curattr, false).ops
  }

  /** `addstr` at row y leaves the pad with a line y. */
  lemma AddstrReaches(v: PadView.View, y: nat, s: string)
    requires PadView.Valid(v) && y <= |v.buf|
    ensures |PadView.Addstr(v, y, 0, s, v.curattr, false).v.buf| > y
  {
    PadProps.AddstrEffect(v, y, 0, s, v.curattr, false);
  }

  /** Written into an empty pad, line i of lines without line breaks is
      line i of the buffer, and nothing else is. */
  lemma {:induction false} PutLinesShow(v: PadView.View, lines: seq<string>, k: nat)
    requires PadView.Valid(v) && v.buf == [] && k <= |lines| && NoBreaks(lines)
    ensures PutLines(v, lines, k).buf == lines[..k]
  {
    if k > 0 {
      PutLinesShow(v, lines, k - 1);
      assert '\n' !in lines[k - 1];
      PutLinesNext(v, lines, k, PutLines(v, lines, k - 1));
    }
  }

  lemma PutLinesNext(v: PadView.View, lines: seq<string>, k: nat, p: PadView.View)
    requires PadView.Valid(v) && 0 < k <= |lines| && '\n' !in lines[k - 1]
    requires p == PutLines(v, lines, k - 1) && p.buf == lines[..k - 1]
    ensures PutLines(v, lines, k).buf == lines[..k]
  {
    AddLine(p, k - 1, lines[k - 1]);
    assert lines[..k] == lines[..k - 1] + [lines[k - 1]];
  }

  /** `addstr(len(buf), 0, line)` of a line without line breaks appends it. */
  lemma AddLine(v: PadView.View, y: nat, line: string)
    requires PadView.Valid(v) && y == |v.buf| && '\n' !in line
    ensures PadView.Addstr(v, y, 0, line, v.curattr, false).v.buf == v.buf + [line]
  {
    assert line[0..] == line;
    SegmentsNoBreak(line, 0);
    PadProps.AddstrEffect(v, y, 0, line, v.curattr, false);
    var b := PadView.Addstr(v, y, 0, line, v.curattr, false).v.buf;
    assert PadProps.LineOr(v.buf, |v.buf|) == [];
    assert b[|v.buf|] == line;
    assert b == v.buf + [line];
  }

  /** Stripping keeps a text free of line breaks. */
  lemma StripNoBreak(t: string)
    requires '\n' !in t
    ensures '\n' !in Strip(t)
  {
    var l := StripLeft(t);
    var r := StripRight(l);
    StripLeftSuffix(t);
    StripRightPrefix(l);
    forall j | 0 <= j < |r|
      ensures r[j] != '\n'
    {
      assert r[j] == l[j] == t[|t| - |l| + j];
    }
  }

  /** The lines of a text without line breaks have none either. */
  lemma {:induction false} WrapNoBreak(s: string, ncols: nat)
    requires ncols >= 1 && '\n' !in s
    ensures NoBreaks(Wrap(s, ncols))
    decreases |s|
  {
    if |s| > ncols {
      var c := Cut(s, ncols);
      NoBreakSlice(s, 0, c);
      NoBreakSlice(s, c, |s|);
      assert s[0..c] == s[..c] && s[c..|s|] == s[c..];
      StripNoBreak(s[c..]);
      WrapNoBreak(Strip(s[c..]), ncols);
      NoBreaksAppend([s[..c]], Wrap(Strip(s[c..]), ncols));
    }
  }

  /** None of the lines holds a line break. */
  predicate NoBreaks(lines: seq<string>)
  {
    forall i :: 0 <= i < |lines| ==> '\n' !in lines[i]
  }

  lemma NoBreaksAppend(a: seq<string>, b: seq<string>)
    requires NoBreaks(a) && NoBreaks(b)
    ensures NoBreaks(a + b)
  {
    forall i | 0 <= i < |a + b|
      ensures '\n' !in (a + b)[i]
    {
      if i < |a| {
        assert (a + b)[i] == a[i];
      } else {
        assert (a + b)[i] == b[i - |a|];
      }
    }
  }

  lemma NoBreakSlice(s: string, a: nat, b: nat)
    requires a <= b <= |s| && '\n' !in s
    ensures '\n' !in s[a..b]
  {
    forall k | 0 <= k < b - a
      ensures s[a..b][k] != '\n'
    {
      assert s[a..b][k] == s[a + k];
    }
  }

  lemma {:induction false} WrapAllNoBreak(pieces: seq<string>, width: nat, k: nat)
    requires width >= 1 && k <= |pieces|
    requires NoBreaks(pieces)
    ensures NoBreaks(WrapAll(pieces, width, k))
  {
    if k > 0 {
      WrapAllNoBreak(pieces, width, k - 1);
      assert '\n' !in pieces[k - 1];
      StripNoBreak(pieces[k - 1]);
      WrapNoBreak(Strip(pieces[k - 1]), width);
      NoBreaksAppend(WrapAll(pieces, width, k - 1), BreakUp(pieces[k - 1], width));
    }
  }

  /** The popup shows its lines one per row: after `__init__` line i of the
      pad is line i of the text (reformatted or not), for every line
      written. */
  lemma PopupShowsLines(nlines: nat, ncols: nat, s: string, reformat: bool, shown: nat)
    requires ncols >= 2 && (reformat ==> ncols >= 3) && shown <= |PopupLines(s, ncols, reformat)|
    ensures var lines := PopupLines(s, ncols, reformat);
      PutLines(PadView.Init(nlines, ncols - 2), lines, shown).buf == lines[..shown]
  {
    var lines := PopupLines(s, ncols, reformat);
    if reformat {
      var pieces := Segments(s, 0);
      WrapAllNoBreak(pieces, ncols - 2, |pieces|);
    }
    PutLinesShow(PadView.Init(nlines, ncols - 2), lines, shown);
  }

  /** The popup: its pad, the number of rows shown, and the done flag. */
  class Popup {
    const w: FlexScrollPad.Pad
    /** The rows of the inner window. */
    const nlines: nat
    /** Whether a `charHandler` was given. */
    const charHandler: bool
    var done: bool

    /** `__init__(parent, nlines, ncols, y, x, s, reformat=...)`: the lines
        are made, the inner window shrinks to them when they are fewer than
        its rows, and they are written one per row (only as many as there
        are rows when reformatting).  The window needs room for its border;
        reformatting to fewer than one inner column would not end. */
    constructor(nlines: nat, ncols: nat, s: string, reformat: bool, charHandler: bool)
      requires nlines >= 2 && ncols >= 2 && (reformat ==> ncols >= 3)
      ensures fresh(w) && w.Valid() && !done && this.charHandler == charHandler
      ensures var lines := PopupLines(s, ncols, reformat);
        this.nlines == Rows(nlines, lines) && w.nlines == this.nlines && w.ncols == ncols - 2 &&
        w.Model() == PutLines(PadView.Init(this.nlines, ncols - 2), lines, Shown(nlines, lines, reformat)) &&
        w.surface == DrawLines(PadView.Init(this.nlines, ncols - 2), lines, Shown(nlines, lines, reformat))
    {
      var lines := MakeLines(s, ncols, reformat);
      var pad, wlines := OpenPad(nlines, ncols, lines, reformat);
      this.w, this.nlines, this.charHandler, this.done := pad, wlines, charHandler, false;
    }

    /** `handleChar(c)`: always true; `notify` tells whether `doneHandler`
        is called.  With a `charHandler`, whose answer to c is `answer`,
        done becomes that answer and the pad is left alone; without one the
        arrows scroll by a line, NPAGE and PPAGE by the window's rows, and
        ENTER sets done. */
    method HandleChar(c: string, answer: bool) returns (handled: bool, notify: bool)
      requires w.Valid()
      modifies this`done, w
      ensures w.Valid() && handled && notify == done
      ensures done == (if charHandler then answer else c == "ENTER" || old(done))
      ensures var r := KeyStep(old(w.Model()), nlines, charHandler, c);
        w.Model() == r.v && w.surface == old(w.surface) + r.ops
    {
      if charHandler {
        done := answer;
      } else if c == "UP" {
        Scroll(-1);
      } else if c == "DOWN" {
        Scroll(1);
      } else if c == "NPAGE" {
        Scroll(nlines);
      } else if c == "PPAGE" {
        Scroll(-(nlines as int));
      } else if c == "ENTER" {
        done := true;
      }
      return true, done;
    }

    /** `scrolly(count)` and `refresh` on the pad. */
    method Scroll(count: int)
      requires w.Valid()
      modifies w
      ensures w.Valid()
      ensures var r := ScrollRefresh(old(w.Model()), count);
        w.Model() == r.v && w.surface == old(w.surface) + r.ops
    {
      w.Scrolly(count);
      w.Refresh();
      FlexScrollPad.AppendAssoc(old(w.surface), PadView.Scrolly(old(w.Model()), count).ops,
                                PadView.Refresh(w.Model()));
    }
  }

  /** A scroll followed by a refresh. */
  function ScrollRefresh(v: PadView.View, count: int): (r: PadView.Step)
    requires PadView.Valid(v)
    ensures PadView.Valid(r.v)
  {
    var s := PadView.Scrolly(v, count);
    PadView.Step(s.v, s.ops + PadView.Refresh(s.v))
  }

  /** What `handleChar` does to the pad. */
  function KeyStep(v: PadView.View, nlines: nat, charHandler: bool, c: string): (r: PadView.Step)
    requires PadView.Valid(v)
    ensures PadView.Valid(r.v)
  {
    if charHandler then PadView.Step(v, [])
    else if c == "UP" then ScrollRefresh(v, -1)
    else if c == "DOWN" then ScrollRefresh(v, 1)
    else if c == "NPAGE" then ScrollRefresh(v, nlines)
    else if c == "PPAGE" then ScrollRefresh(v, -(nlines as int))
    else PadView.Step(v, [])
  }

  /** The scrolling keys: UP and DOWN move the window by one line, NPAGE and
      PPAGE by the rows of the window, as `scrolly` clamps them; the text,
      the current position and the column are kept, and the window is
      refreshed last.  With a `charHandler`, or for any other key, the pad
      is left alone. */
  lemma KeyStepEffect(v: PadView.View, nlines: nat, charHandler: bool, c: string)
    requires PadView.Valid(v)
    ensures var r := KeyStep(v, nlines, charHandler, c);
      var count := if c == "UP" then -1 else if c == "DOWN" then 1
        else if c == "NPAGE" then nlines as int else -(nlines as int);
      if !charHandler && c in {"UP", "DOWN", "NPAGE", "PPAGE"} then
        r.v == PadView.Scrolly(v, count).v &&
        r.v.buf == v.buf && r.v.attr == v.attr && r.v.cury == v.cury && r.v.curx == v.curx &&
        r.v.topx == v.topx && r.ops != [] && r.ops[|r.ops| - 1] == RefreshWindow
      else r == PadView.Step(v, [])
  {
    var count := if c == "UP" then -1 else if c == "DOWN" then 1
      else if c == "NPAGE" then nlines as int else -(nlines as int);
    PadProps.ScrollyEffect(v, count);
    var s := PadView.Scrolly(v, count);
    assert PadView.Refresh(s.v)[|PadView.Refresh(s.v)| - 1] == RefreshWindow;
  }

  /** The lines of `__init__`. */
  method MakeLines(s: string, ncols: nat, reformat: bool) returns (lines: seq<string>)
    requires reformat ==> ncols >= 3
    ensures lines == PopupLines(s, ncols, reformat)
  {
    var pieces := Segments(s, 0);
    if reformat {
      lines := Reformat(pieces, ncols - 2);
    } else {
      lines := pieces;
    }
  }

  /** Every piece broken up in turn. */
  method Reformat(pieces: seq<string>, width: nat) returns (lines: seq<string>)
    requires width >= 1
    ensures lines == WrapAll(pieces, width, |pieces|)
  {
    lines := [];
    for k := 0 to |pieces|
      invariant lines == WrapAll(pieces, width, k)
    {
      var more := BreakupLine(pieces[k], width);
      lines := lines + more;
    }
  }

  /** The rows of the inner window: those of the window without its
      border, or fewer when there are fewer lines. */
  function Rows(nlines: nat, lines: seq<string>): (rows: nat)
    requires nlines >= 2
    ensures rows <= |lines| && rows <= nlines - 2
    ensures rows == |lines| || rows == nlines - 2
  {
    if |lines| < nlines - 2 then |lines| else nlines - 2
  }

  /** The lines written by `__init__`: all of them when not reformatting,
      no more than the rows when reformatting. */
  function Shown(nlines: nat, lines: seq<string>, reformat: bool): (n: nat)
    requires nlines >= 2
    ensures n <= |lines|
    ensures reformat ==> n == Rows(nlines, lines)
    ensures !reformat ==> n == |lines|
  {
    if reformat then Rows(nlines, lines) else |lines|
  }

  /** The inner window of `__init__` with the lines written to it. */
  method OpenPad(nlines: nat, ncols: nat, lines: seq<string>, reformat: bool)
    returns (pad: FlexScrollPad.Pad, wlines: nat)
    requires nlines >= 2 && ncols >= 2
    ensures fresh(pad) && pad.Valid() && wlines == Rows(nlines, lines)
    ensures pad.nlines == wlines && pad.ncols == ncols - 2
    ensures pad.Model() == PutLines(PadView.Init(wlines, ncols - 2), lines, Shown(nlines, lines, reformat))
    ensures pad.surface == DrawLines(PadView.Init(wlines, ncols - 2), lines, Shown(nlines, lines, reformat))
  {
    wlines := nlines - 2;
    if |lines| < wlines {
      wlines := |lines|;
    }
    var shown := if reformat then wlines else |lines|;
    assert shown == Shown(nlines, lines, reformat);
    pad := new FlexScrollPad.Pad(wlines, ncols - 2);
    WriteLines(pad, lines, shown, PadView.Init(wlines, ncols - 2));
  }

  /** The writing loop of `__init__`: lines 0 to shown - 1, each at its row. */
  method WriteLines(pad: FlexScrollPad.Pad, lines: seq<string>, shown: nat, ghost v: PadView.View)
    requires PadView.Valid(v) && pad.Model() == v && pad.surface == [] && shown <= |lines|
    modifies pad
    ensures pad.Valid()
    ensures pad.Model() == PutLines(v, lines, shown) && pad.surface == DrawLines(v, lines, shown)
  {
    var i := 0;
    while i != shown
      invariant i <= shown && Written(pad.Model(), pad.surface, v, lines, i)
      decreases shown - i
    {
      WriteNext(pad, lines, i, v);
      i := i + 1;
    }
  }

  /** The pad holds the first i lines. */
  ghost predicate Written(m: PadView.View, surf: seq<Op>, v: PadView.View, lines: seq<string>, i: nat)
  {
    PadView.Valid(v) && i <= |lines| &&
    m == PutLines(v, lines, i) && surf == DrawLines(v, lines, i)
  }

  method WriteNext(pad: FlexScrollPad.Pad, lines: seq<string>, i: nat, ghost v: PadView.View)
    requires i < |lines| && Written(pad.Model(), pad.surface, v, lines, i)
    modifies pad
    ensures pad.Valid() && Written(pad.Model(), pad.surface, v, lines, i + 1)
  {
    var _ := pad.Addstr(Some((i, 0)), lines[i], None);
  }
}
