/** `FlexScrollPad` (UIpartition/FlexScrollPad.py): a window of fixed size
    `nlines` x `ncols` showing part of a buffer of lines that may be larger
    or smaller than it.  The object keeps the buffer, the attributes, the
    window's place over the buffer and the current position in fields that
    its methods update, and `surface` records what it did to the window.
    Every method is specified by the function of `PadView` with the same
    name: `Model()` afterwards is that function's new state and `surface`
    has grown by the window operations it lists. */
module FlexScrollPad {
  import opened Wrappers
  import opened Surface
  import opened Text
  import opened PadRuns
  import PadView
  import PadProps

  /** `_seqext(s, x, count)`: s extended by count copies of x. */
  method SeqExt<T>(s: seq<T>, x: T, count: nat) returns (r: seq<T>)
    ensures r == s + Repeat(x, count)
  {
    r := s;
    for i := 0 to count
      invariant r == s + Repeat(x, i)
    {
      assert Repeat(x, i) + [x] == Repeat(x, i + 1);
      r := r + [x];
    }
  }

  /** The scan of `_redispLine`: walk the attributes, issuing a write of
      the text since the last change each time the attribute changes, and
      one for the last run. */
  method ScanRuns(row: nat, t: string, a: seq<Attr>) returns (ops: seq<Op>)
    requires |t| == |a| && |a| > 0
    ensures ops == Runs(row, 0, t, a)
  {
    assert t[0..] == t && a[0..] == a;
    ops := [];
    var ca := a[0];
    var beg := 0;
    for i := 0 to |a|
      invariant beg <= i && beg < |a| && ca == a[beg]
      invariant Uniform(a, beg, i, ca)
      invariant ops + TailRuns(row, 0, t, a, beg) == Runs(row, 0, t, a)
    {
      if a[i] != ca {
        ScanStep(row, t, a, ops, beg, i);
        ops := ops + [Write(row, beg, t[beg..i], ca)];
        ca := a[i];
        beg := i;
      }
      UniformExtend(a, beg, i, ca);
    }
    ScanDone(row, t, a, ops, beg);
    ops := ops + [Write(row, beg, t[beg..], ca)];
  }

  /** A step of `ScanRuns`: the run from beg ends before i. */
  lemma ScanStep(row: nat, t: string, a: seq<Attr>, ops: seq<Op>, beg: nat, i: nat)
    requires |t| == |a| && beg < i < |a| && Uniform(a, beg, i, a[beg]) && a[i] != a[beg]
    requires ops + TailRuns(row, 0, t, a, beg) == Runs(row, 0, t, a)
    ensures (ops + [Write(row, beg, t[beg..i], a[beg])]) + TailRuns(row, 0, t, a, i) == Runs(row, 0, t, a)
  {
    var w := Write(row, beg, t[beg..i], a[beg]);
    TailRunsCons(row, 0, t, a, beg, i, t[beg..i], a[beg]);
    AppendAssoc(ops, [w], TailRuns(row, 0, t, a, i));
  }

  /** The end of `ScanRuns`: the run from beg is the last. */
  lemma ScanDone(row: nat, t: string, a: seq<Attr>, ops: seq<Op>, beg: nat)
    requires |t| == |a| && beg < |a| && Uniform(a, beg, |a|, a[beg])
    requires ops + TailRuns(row, 0, t, a, beg) == Runs(row, 0, t, a)
    ensures ops + [Write(row, beg, t[beg..], a[beg])] == Runs(row, 0, t, a)
  {
    assert t[beg..|a|] == t[beg..];
    TailRunsCons(row, 0, t, a, beg, |a|, t[beg..], a[beg]);
    assert TailRuns(row, 0, t, a, |a|) == [] by {
      assert t[|a|..] == [] && a[|a|..] == [];
    }
  }

  /** The current position after `insstr` moved the tail of line y from
      column x to column nx: after the inserted text at the cursor, moved
      with the tail when it was on it, else kept. */
  function InsMoved(w: PadView.View, y: nat, x: nat, nx: nat, atCursor: bool): (r: PadView.View)
    ensures r.(cury := w.cury, curx := w.curx) == w
    ensures atCursor ==> r.cury == y && r.curx == nx
    ensures !atCursor && w.cury == y && w.curx >= x ==> r.cury == y && r.curx == w.curx - x + nx
    ensures !atCursor && !(w.cury == y && w.curx >= x) ==> r == w
  {
    if atCursor then w.(cury := y, curx := nx)
    else if w.cury == y && w.curx >= x then w.(curx := w.curx - x + nx)
    else w
  }

  /** `insstr` within the buffer is its three steps and a refresh, the
      current position moved as `InsMoved` says. */
  lemma InsstrIs(v: PadView.View, y: nat, x: nat, s: string, at: Attr, atCursor: bool,
                 r1: PadView.Step, r2: PadView.Step, nx: nat, tb: string, ta: seq<Attr>, r3: PadView.Step)
    requires PadView.Valid(v) && y < |v.buf| && x < |v.buf[y]| && '\n' !in s
    requires r1 == PadView.Clrtoeol(v, y, x) && r2 == PadView.Addstr(r1.v, y, x, s, at, false)
    requires y < |r2.v.buf| && nx == |r2.v.buf[y]| && tb == v.buf[y][x..] && ta == v.attr[y][x..]
    requires PadView.LineWrites(r2.v, Runs(y, nx, tb, ta)) && r3 == PadView.ApplyWrites(r2.v, Runs(y, nx, tb, ta))
    ensures var r := PadView.Insstr(v, y, x, s, at, atCursor);
      r.ops == r1.ops + r2.ops + r3.ops + PadView.Refresh(r3.v) &&
      r.v == InsMoved(r3.v, y, x, nx, atCursor)
  {
  }

  /** The branches of `_addstr` on one line sb and its attributes sa:
      s overwrites sb from column x in attribute at, a gap past the end of
      the line padded with spaces in attribute fill. */
  method Splice(sb: string, sa: seq<Attr>, x: nat, s: string, at: Attr, fill: Attr) returns (nb: string, na: seq<Attr>)
    requires |sb| == |sa|
    ensures nb == PadView.Overwrite(sb, x, s, ' ')
    ensures na == PadView.Overwrite(sa, x, Repeat(at, |s|), fill)
  {
    var sblen := |sb|;
    var slen := |s|;
    var a := SeqExt([], at, slen);
    if x < sblen {
      var epos := x + slen;
      if epos < sblen {
        nb := sb[..x] + s + sb[epos..];
        na := sa[..x] + a + sa[epos..];
      } else {
        nb := sb[..x] + s;
        na := sa[..x] + a;
      }
    } else if x > sblen {
      var pad := SeqExt([], fill, x - sblen);
      nb := sb + FormatSpace(x - sblen) + s;
      na := sa + pad + a;
    } else {
      nb := sb + s;
      na := sa + a;
    }
  }

  /** The second half of `deleteln(y)` on v: the view after the window and
      the current line are moved, and the redraw of the top row when the
      window moved up. */
  function AfterDelete(v: PadView.View, y: nat): (r: PadView.Step)
    requires PadView.Valid(v) && y < |v.buf|
    ensures PadView.Valid(r.v)
  {
    var v1 := PadView.DeleteRow(v, y);
    if v.topy >= |v1.buf| then
      if v.topy > 0 then
        var v2 := v1.(cury := if v.topy == v.cury || v.cury > y then v.cury - 1 else v.cury, topy := v.topy - 1);
        PadView.Step(v2, PadView.RedispLine(v2, 0))
      else PadView.Step(v1, [])
    else
      PadView.Step(v1.(cury := if v.cury > y then v.cury - 1 else v.cury,
                       topy := if v.topy > y then v.topy - 1 else v.topy), [])
  }

  /** `deleteln` is its two halves. */
  lemma DeletelnSplit(v: PadView.View, y: nat)
    requires PadView.Valid(v) && y < |v.buf|
    ensures var v1 := PadView.DeleteRow(v, y);
      PadView.Deleteln(v, y) ==
        PadView.Step(AfterDelete(v, y).v, PadView.DeleteRowOps(v1, PadView.DisplayPosY(v, y)) + AfterDelete(v, y).ops)
  {
  }

  lemma AppendAssoc<T>(a: seq<T>, b: seq<T>, c: seq<T>)
    ensures (a + b) + c == a + (b + c)
  {
  }

  /** A step of the tail loop of `insstr` on a pad m with the window of v:
      applying the write w and then the writes rest is applying [w] + rest,
      and what it shows does not depend on the lines of m. */
  lemma TailStep(v: PadView.View, m: PadView.View, y: nat, x: nat, seg: string, at: Attr, rest: seq<Op>, all: seq<Op>)
    requires PadView.Valid(v) && PadView.Valid(m) && m.(buf := v.buf, attr := v.attr) == v && |m.buf| == |v.buf|
    requires all == [Write(y, x, seg, at)] + rest
    requires y < |v.buf| && PadView.LineWrites(v, all)
    ensures PadView.LineWrites(v, rest)
    ensures var m2 := PadView.LineAdd(m, y, x, seg, at);
      PadView.LineWrites(v, rest) &&
      m2.v.(buf := v.buf, attr := v.attr) == v &&
      PadView.PutLines(m2.v, rest) == PadView.PutLines(m, all) &&
      PadView.DrawSpans(v, all) == PadView.DrawSpan(v, y, x, seg, at) + PadView.DrawSpans(v, rest) &&
      m2.ops == PadView.DrawSpan(v, y, x, seg, at)
  {
    var w := Write(y, x, seg, at);
    PadProps.DrawSpansCons(v, w, rest);
    PadProps.LineWritesLength(v, m, rest);
    PadProps.PutLinesCons(m, w, rest);
    PadProps.DrawSpanWindow(v, m, y, x, seg, at);
  }

  /** The runs of the tail from index beg on, drawn from column col + beg. */
  function TailRuns(y: nat, col: nat, tb: string, ta: seq<Attr>, beg: nat): seq<Op>
    requires |tb| == |ta| && beg <= |ta|
  {
    Runs(y, col + beg, tb[beg..], ta[beg..])
  }

  /** The step of the tail loop of `insstr` on a pad m with the window of
      v: the run from beg up to k is the next write, and `_addstr` of it
      leaves the runs from k to write. */
  lemma RunStep(v: PadView.View, m: PadView.View, y: nat, col: nat, tb: string, ta: seq<Attr>, beg: nat, k: nat, seg: string, at: Attr)
    requires PadView.Valid(v) && y < |v.buf| && |tb| == |ta| && beg < k <= |ta|
    requires seg == tb[beg..k] && at == ta[beg]
    requires PadView.Valid(m) && m.(buf := v.buf, attr := v.attr) == v && |m.buf| == |v.buf|
    requires forall j :: beg <= j < k ==> ta[j] == ta[beg]
    requires k < |ta| ==> ta[k] != ta[beg]
    requires PadView.LineWrites(v, TailRuns(y, col, tb, ta, beg))
    ensures var m2 := PadView.LineAdd(m, y, col + beg, seg, at);
      PadView.LineWrites(v, TailRuns(y, col, tb, ta, k)) &&
      m2.v.(buf := v.buf, attr := v.attr) == v &&
      PadView.PutLines(m2.v, TailRuns(y, col, tb, ta, k)) == PadView.PutLines(m, TailRuns(y, col, tb, ta, beg)) &&
      PadView.DrawSpans(v, TailRuns(y, col, tb, ta, beg)) ==
        PadView.DrawSpan(v, y, col + beg, seg, at) + PadView.DrawSpans(v, TailRuns(y, col, tb, ta, k)) &&
      m2.ops == PadView.DrawSpan(v, y, col + beg, seg, at)
  {
    var w := Write(y, col + beg, seg, at);
    var next := TailRuns(y, col, tb, ta, k);
    var all := TailRuns(y, col, tb, ta, beg);
    TailRunsCons(y, col, tb, ta, beg, k, seg, at);
    TailStep(v, m, y, col + beg, seg, at, next, all);
  }

  /** The runs of the tail from beg: the run up to k, then the runs from k. */
  lemma TailRunsCons(y: nat, col: nat, tb: string, ta: seq<Attr>, beg: nat, k: nat, seg: string, at: Attr)
    requires |tb| == |ta| && beg < k <= |ta| && seg == tb[beg..k] && at == ta[beg]
    requires forall j :: beg <= j < k ==> ta[j] == ta[beg]
    requires k < |ta| ==> ta[k] != ta[beg]
    ensures TailRuns(y, col, tb, ta, beg) == [Write(y, col + beg, seg, at)] + TailRuns(y, col, tb, ta, k)
  {
    if k < |ta| {
      TailRunsMid(y, col, tb, ta, beg, k);
    } else {
      TailRunsEnd(y, col, tb, ta, beg);
      assert seg == tb[beg..];
    }
  }

  /** TailRunsCons when the attribute changes at k. */
  lemma TailRunsMid(y: nat, col: nat, tb: string, ta: seq<Attr>, beg: nat, k: nat)
    requires |tb| == |ta| && beg < k < |ta|
    requires forall j :: beg <= j < k ==> ta[j] == ta[beg]
    requires ta[k] != ta[beg]
    ensures TailRuns(y, col, tb, ta, beg) == [Write(y, col + beg, tb[beg..k], ta[beg])] + TailRuns(y, col, tb, ta, k)
  {
    RunsFrom(y, col + beg, col + k, tb, ta, beg, k);
    assert TailRuns(y, col, tb, ta, beg) == Runs(y, col + beg, tb[beg..], ta[beg..]);
    assert TailRuns(y, col, tb, ta, k) == Runs(y, col + k, tb[k..], ta[k..]);
  }

  /** TailRunsCons for the last run. */
  lemma TailRunsEnd(y: nat, col: nat, tb: string, ta: seq<Attr>, beg: nat)
    requires |tb| == |ta| && beg < |ta|
    requires forall j :: beg <= j < |ta| ==> ta[j] == ta[beg]
    ensures TailRuns(y, col, tb, ta, beg) == [Write(y, col + beg, tb[beg..], ta[beg])]
    ensures TailRuns(y, col, tb, ta, |ta|) == []
  {
    RunsLast(y, col + beg, tb, ta, beg);
    assert TailRuns(y, col, tb, ta, beg) == Runs(y, col + beg, tb[beg..], ta[beg..]);
    assert tb[|ta|..] == [] && ta[|ta|..] == [];
    assert TailRuns(y, col, tb, ta, |ta|) == Runs(y, col + |ta|, [], []);
  }

  /** Every attribute of a from lo up to hi is c. */
  predicate Uniform(a: seq<Attr>, lo: nat, hi: nat, c: Attr)
    requires lo <= hi <= |a|
  {
    forall j :: lo <= j < hi ==> a[j] == c
  }

  lemma UniformExtend(a: seq<Attr>, lo: nat, hi: nat, c: Attr)
    requires lo <= hi < |a| && (lo == hi || Uniform(a, lo, hi, c)) && a[hi] == c
    ensures Uniform(a, lo, hi + 1, c)
  {
  }

  /** What the tail loop of `insstr` keeps, given the pad v it started
      from and the pad and writes st it has reached with the runs before
      beg written: writing the runs from beg finishes the job. */
  ghost predicate TailInv(v: PadView.View, st: PadView.Step, y: nat, col: nat, tb: string, ta: seq<Attr>, beg: nat)
  {
    PadView.Valid(v) && y < |v.buf| && |tb| == |ta| && beg <= |ta| &&
    PadView.Valid(st.v) && st.v.(buf := v.buf, attr := v.attr) == v && |st.v.buf| == |v.buf| &&
    PadView.LineWrites(v, Runs(y, col, tb, ta)) &&
    PadView.LineWrites(v, TailRuns(y, col, tb, ta, beg)) &&
    PadView.PutLines(st.v, TailRuns(y, col, tb, ta, beg)) == PadView.PutLines(v, Runs(y, col, tb, ta)) &&
    st.ops + PadView.DrawSpans(v, TailRuns(y, col, tb, ta, beg)) == PadView.DrawSpans(v, Runs(y, col, tb, ta))
  }

  /** `_addstr` of a piece on the pad of st, and the writes it adds. */
  function AddTo(st: PadView.Step, y: nat, x: nat, s: string, at: Attr): (r: PadView.Step)
    requires PadView.Valid(st.v) && y < |st.v.buf|
    ensures r.ops == st.ops + PadView.LineAdd(st.v, y, x, s, at).ops
  {
    var r := PadView.LineAdd(st.v, y, x, s, at);
    PadView.Step(r.v, st.ops + r.ops)
  }

  lemma TailInvStart(v: PadView.View, y: nat, col: nat, tb: string, ta: seq<Attr>)
    requires PadView.Valid(v) && y < |v.buf| && |tb| == |ta|
    requires PadView.LineWrites(v, Runs(y, col, tb, ta))
    ensures TailInv(v, PadView.Step(v, []), y, col, tb, ta, 0)
  {
    assert tb[0..] == tb && ta[0..] == ta;
  }

  lemma TailInvStep(v: PadView.View, st: PadView.Step, y: nat, col: nat, tb: string, ta: seq<Attr>, beg: nat, k: nat, seg: string, at: Attr)
    requires TailInv(v, st, y, col, tb, ta, beg)
    requires beg < k <= |ta| && seg == tb[beg..k] && at == ta[beg]
    requires Uniform(ta, beg, k, ta[beg])
    requires k < |ta| ==> ta[k] != ta[beg]
    ensures TailInv(v, AddTo(st, y, col + beg, seg, at), y, col, tb, ta, k)
  {
    var m := st.v;
    RunStep(v, m, y, col, tb, ta, beg, k, seg, at);
    var m2 := PadView.LineAdd(m, y, col + beg, seg, at);
    AppendAssoc(st.ops, m2.ops, PadView.DrawSpans(v, TailRuns(y, col, tb, ta, k)));
  }

  lemma TailInvDone(v: PadView.View, st: PadView.Step, y: nat, col: nat, tb: string, ta: seq<Attr>)
    requires TailInv(v, st, y, col, tb, ta, |ta|)
    ensures st.v == PadView.PutLines(v, Runs(y, col, tb, ta))
    ensures st.ops == PadView.DrawSpans(v, Runs(y, col, tb, ta))
  {
    assert tb[|ta|..] == [] && ta[|ta|..] == [];
    assert TailRuns(y, col, tb, ta, |ta|) == [];
    assert st.ops + [] == st.ops;
  }

  /** The segments from p when no line break follows p. */
  lemma SegmentsLast(s: string, p: nat)
    requires p <= |s| && Find(s, '\n', p) == -1
    ensures Segments(s, p) == [s[p..]]
  {
  }

  /** The segments from p when the next line break is at n. */
  lemma SegmentsNext(s: string, p: nat, n: int)
    requires p <= |s| && n == Find(s, '\n', p) && n != -1
    ensures Segments(s, p) == [s[p..n]] + Segments(s, n + 1)
  {
  }

  /** The last piece of `addstr`. */
  lemma SegsLast(v: PadView.View, y: nat, x: nat, seg: string, at: Attr)
    requires PadView.Valid(v) && y <= |v.buf|
    ensures PadView.PutSegs(v, y, x, [seg], at) == PadView.AddSeg(v, y, x, seg, at).v
    ensures PadView.DrawSegs(v, y, x, [seg], at) == PadView.AddSeg(v, y, x, seg, at).ops
  {
  }

  /** A piece of `addstr` that a line break follows. */
  lemma SegsNext(v: PadView.View, y: nat, x: nat, segs: seq<string>, at: Attr)
    requires PadView.Valid(v) && y <= |v.buf| && |segs| > 1
    ensures var r := PadView.AddSeg(v, y, x, segs[0], at);
      PadView.PutSegs(v, y, x, segs, at) == PadView.PutSegs(r.v, y + 1, 0, segs[1..], at) &&
      PadView.DrawSegs(v, y, x, segs, at) == r.ops + PadView.DrawSegs(r.v, y + 1, 0, segs[1..], at)
  {
  }

  /** One pass of the loop of `addstr` on the pad of st, and the writes it
      adds. */
  function AddSegTo(st: PadView.Step, y: nat, x: nat, seg: string, at: Attr): (r: PadView.Step)
    requires PadView.Valid(st.v) && y <= |st.v.buf|
    ensures r.ops == st.ops + PadView.AddSeg(st.v, y, x, seg, at).ops
    ensures PadView.Valid(r.v)
  {
    var r := PadView.AddSeg(st.v, y, x, seg, at);
    PadView.Step(r.v, st.ops + r.ops)
  }

  /** What the loop of `addstr` keeps: the pieces done so far and the ones
      from p make up all of them; (y, x) is where the next one goes; and
      writing the pieces from p on the pad of st finishes `total`. */
  ghost predicate AddInv(total: PadView.Step, st: PadView.Step, s: string, p: nat, y: nat, x: nat, at: Attr,
                         y0: nat, x0: nat, done: seq<string>)
  {
    p <= |s| && PadView.Valid(st.v) && y <= |st.v.buf| &&
    done + Segments(s, p) == Segments(s, 0) &&
    y == y0 + |done| && x == (if done == [] then x0 else 0) &&
    PadView.PutSegs(st.v, y, x, Segments(s, p), at) == total.v &&
    st.ops + PadView.DrawSegs(st.v, y, x, Segments(s, p), at) == total.ops
  }

  lemma AddInvStart(v: PadView.View, s: string, y: nat, x: nat, at: Attr)
    requires PadView.Valid(v) && y <= |v.buf|
    ensures AddInv(PadView.AddSegs(v, y, x, Segments(s, 0), at), PadView.Step(v, []), s, 0, y, x, at, y, x, [])
  {
    assert [] + Segments(s, 0) == Segments(s, 0);
    assert [] + PadView.DrawSegs(v, y, x, Segments(s, 0), at) == PadView.DrawSegs(v, y, x, Segments(s, 0), at);
  }

  /** A piece that a line break ends. */
  lemma AddInvNext(total: PadView.Step, st: PadView.Step, s: string, p: nat, n: int, seg: string, y: nat, x: nat, at: Attr,
                   y0: nat, x0: nat, done: seq<string>)
    requires AddInv(total, st, s, p, y, x, at, y0, x0, done)
    requires n == Find(s, '\n', p) && n != -1 && seg == s[p..n]
    ensures AddInv(total, AddSegTo(st, y, x, seg, at), s, n + 1, y + 1, 0, at, y0, x0, done + [seg])
  {
    var rest := Segments(s, n + 1);
    SegmentsNext(s, p, n);
    var segs := [seg] + rest;
    SegsNext(st.v, y, x, segs, at);
    assert segs[0] == seg && segs[1..] == rest;
    var r := PadView.AddSeg(st.v, y, x, seg, at);
    AppendAssoc(st.ops, r.ops, PadView.DrawSegs(r.v, y + 1, 0, rest, at));
    AppendAssoc(done, [seg], rest);
  }

  /** The last piece. */
  lemma AddInvLast(total: PadView.Step, st: PadView.Step, s: string, p: nat, seg: string, y: nat, x: nat, at: Attr,
                   y0: nat, x0: nat, done: seq<string>)
    requires AddInv(total, st, s, p, y, x, at, y0, x0, done)
    requires Find(s, '\n', p) == -1 && seg == s[p..]
    ensures AddSegTo(st, y, x, seg, at) == total
    ensures done + [seg] == Segments(s, 0)
    ensures y == y0 + |Segments(s, 0)| - 1 && x + |seg| == PadView.EndColumn(x0, Segments(s, 0))
  {
    SegmentsLast(s, p);
    SegsLast(st.v, y, x, seg, at);
  }

  /** The loop of `modattr`: attribute `at` on positions lo up to hi of a. */
  method FillAttrs(a: seq<Attr>, lo: nat, hi: nat, at: Attr) returns (b: seq<Attr>)
    requires lo <= hi <= |a|
    ensures b == PadView.SetRange(a, lo, hi, at)
  {
    b := a;
    for i := lo to hi
      invariant |b| == |a|
      invariant forall j :: 0 <= j < |a| ==> b[j] == (if lo <= j < i then at else a[j])
    {
      b := b[i := at];
    }
    PadView.SetRangeAt(a, lo, hi, at);
  }

  /** `addstr` is the pieces' `AddSegs`, then the cursor move. */
  lemma AddstrResult(v: PadView.View, y: nat, x: nat, s: string, at: Attr, atCursor: bool)
    requires PadView.Valid(v) && y <= |v.buf|
    ensures var total := PadView.AddSegs(v, y, x, Segments(s, 0), at);
      var r := PadView.Addstr(v, y, x, s, at, atCursor);
      r.ops == total.ops &&
      r.v == if atCursor then total.v.(cury := y + |Segments(s, 0)| - 1, curx := PadView.EndColumn(x, Segments(s, 0))) else total.v
  {
  }

  lemma DeleteRowOpsBottom(v1: PadView.View, py: int)
    requires PadView.Parallel(v1) && py >= 0 && v1.topy + v1.nlines <= |v1.buf| && v1.nlines > 0
    ensures PadView.DeleteRowOps(v1, py) == [DeleteLine(py)] + PadView.RedispLine(v1, v1.nlines - 1)
  {
  }

  class Pad {
    const nlines: nat
    const ncols: nat
    var curattr: Attr
    var buf: seq<string>
    var attr: seq<seq<Attr>>
    var topy: nat
    var topx: nat
    var cury: nat
    var curx: nat
    /** The window operations issued so far, in order. */
    var surface: seq<Op>

    /** The state of the pad as a value. */
    function Model(): PadView.View
      reads this`curattr, this`buf, this`attr, this`topy, this`topx, this`cury, this`curx
    {
      PadView.View(nlines, ncols, curattr, buf, attr, topy, topx, cury, curx)
    }

    predicate Valid()
      reads this`curattr, this`buf, this`attr, this`topy, this`topx, this`cury, this`curx
    {
      PadView.Valid(Model())
    }

    /** `__init__`: an empty pad; the window it draws on is `surface`. */
    constructor(nlines: nat, ncols: nat)
      ensures this.nlines == nlines && this.ncols == ncols
      ensures Model() == PadView.Init(nlines, ncols) && surface == []
    {
      this.nlines := nlines;
      this.ncols := ncols;
      curattr := NORMAL;
      surface := [];
      new;
      ClearBuffer();
    }

    /** `_clear`. */
    method ClearBuffer()
      modifies this
      ensures Model() == PadView.Clear(old(Model())).v && surface == old(surface)
    {
      buf := [];
      attr := [];
      topy := 0;
      topx := 0;
      cury := 0;
      curx := 0;
    }

    /** `clear`. */
    method Clear()
      modifies this
      ensures Valid()
      ensures Model() == PadView.Clear(old(Model())).v
      ensures surface == old(surface) + PadView.Clear(old(Model())).ops
    {
      ClearBuffer();
      surface := surface + [ClearWindow];
    }

    /** `attrset`. */
    method Attrset(at: Attr)
      modifies this
      ensures Model() == PadView.Attrset(old(Model()), at).v
      ensures surface == old(surface) + PadView.Attrset(old(Model()), at).ops
    {
      curattr := at;
      surface := surface + [SetAttr(at)];
    }

    /** `_redispLine(ywin)`: redraw window row ywin from the visible part of
        its line. */
    method RedispLine(ywin: nat, ghost v: PadView.View)
      requires v == Model() && PadView.Parallel(v) && v.topy + ywin < |v.buf|
      modifies this`surface
      ensures surface == old(surface) + PadView.RedispLine(v, ywin)
    {
      var a := Slice(attr[topy + ywin], topx, topx + ncols);
      var b := Slice(buf[topy + ywin], topx, topx + ncols);
      assert PadView.RedispLine(v, ywin) == Runs(ywin, 0, b, a);
      if |a| == 0 {
        return;
      }
      var ops := ScanRuns(ywin, b, a);
      surface := surface + ops;
    }

    /** The `_redispLine` loop of `redraw` and `scrolly`: redraw window
        rows lo up to hi, stopping at the first row past the end of the
        buffer. */
    method RedispRows(lo: nat, hi: int, ghost v: PadView.View)
      requires v == Model() && PadView.Parallel(v)
      modifies this`surface
      ensures surface == old(surface) + PadView.RedispRows(v, lo, hi)
    {
      var y := lo;
      while y < hi
        invariant lo <= y
        invariant v == Model()
        invariant surface + PadView.RedispRows(v, y, hi) == old(surface) + PadView.RedispRows(v, lo, hi)
        decreases hi - y
      {
        if y + topy >= |buf| {
          assert surface == old(surface) + PadView.RedispRows(v, lo, hi);
          return;
        }
        ghost var s1 := surface;
        RedispLine(y, v);
        assert surface + PadView.RedispRows(v, y + 1, hi) == s1 + PadView.RedispRows(v, y, hi) by {
          assert PadView.RedispRows(v, y, hi) == PadView.RedispLine(v, y) + PadView.RedispRows(v, y + 1, hi);
          AppendAssoc(s1, PadView.RedispLine(v, y), PadView.RedispRows(v, y + 1, hi));
        }
        y := y + 1;
      }
    }

    /** `redraw`: clear the window, then redraw its rows down to the end of
        the buffer. */
    method Redraw(ghost v: PadView.View)
      requires v == Model() && PadView.Parallel(v)
      modifies this`surface
      ensures surface == old(surface) + PadView.Redraw(v)
    {
      surface := surface + [ClearWindow];
      RedispRows(0, nlines, v);
      AppendAssoc(old(surface), [ClearWindow], PadView.RedispRows(v, 0, nlines));
    }

    /** `refresh`. */
    method Refresh()
      modifies this`surface
      ensures Model() == old(Model())
      ensures surface == old(surface) + PadView.Refresh(Model())
    {
      var pos := PadView.DisplayPos(Model(), cury, curx, 1);
      if pos.Some? {
        surface := surface + [MoveCursor(pos.value.0, pos.value.1)];
      }
      surface := surface + [RefreshWindow];
    }

    /** `modattr(attr, y, x, xlen)`, y and x defaulting to the current
        position. */
    method Modattr(at: Attr, y: Option<nat>, x: Option<nat>, xlen: int) returns (err: Option<PadView.PadErr>)
      requires Valid() && xlen >= -1
      modifies this
      ensures Valid()
      ensures var yy := y.GetOr(old(cury));
        if yy >= |old(buf)| then
          err == Some(PadView.PadErr("modattr", yy, |old(buf)| - 1)) &&
          Model() == old(Model()) && surface == old(surface)
        else
          var r := PadView.Modattr(old(Model()), at, yy, x.GetOr(old(curx)), xlen);
          err == None && Model() == r.v && surface == old(surface) + r.ops
    {
      var yy := y.GetOr(cury);
      if yy >= |buf| {
        return Some(PadView.PadErr("modattr", yy, |buf| - 1));
      }
      ModattrAt(at, yy, x.GetOr(curx), xlen, Model());
      return None;
    }

    /** The body of `modattr` once its position is resolved to (y, x). */
    method ModattrAt(at: Attr, y: nat, x: nat, xlen: int, ghost v: PadView.View)
      requires v == Model() && PadView.Valid(v) && y < |v.buf| && xlen >= -1
      modifies this
      ensures Valid()
      ensures Model() == PadView.Modattr(v, at, y, x, xlen).v && surface == old(surface) + PadView.Modattr(v, at, y, x, xlen).ops
    {
      var xl: nat := if xlen == -1 then ncols else xlen;
      var a := attr[y];
      var alen := |a|;
      if x >= alen {
        return;
      } else if x + xl > alen {
        xl := alen - x;
      }
      var s := buf[y][x..x + xl];
      a := FillAttrs(a, x, x + xl, at);
      assert PadView.Modattr(v, at, y, x, xlen) ==
        PadView.Step(v.(attr := v.attr[y := a]), PadView.DrawSpan(v, y, x, s, at));
      ShowText(y, x, s, at, v);
      SetAttrLine(y, a, v);
    }

    /** Show the visible part of s, written at (y, x) of the pad. */
    method ShowText(y: int, x: nat, s: string, at: Attr, ghost w: PadView.View)
      requires w == Model()
      modifies this`surface
      ensures surface == old(surface) + PadView.DrawSpan(w, y, x, s, at)
    {
      var sp := PadView.ShowSpan(Model(), y, x, |s|);
      if sp.Some? {
        surface := surface + [Write(sp.value.row, sp.value.col, s[sp.value.lo..sp.value.hi], at)];
      }
    }

    /** Replace the attributes of line y by a. */
    method SetAttrLine(y: nat, a: seq<Attr>, ghost w: PadView.View)
      requires w == Model() && y < |w.attr|
      modifies this`attr
      ensures Model() == w.(attr := w.attr[y := a])
    {
      attr := attr[y := a];
    }

    /** `_addstr(y, x, s, attr)`: overwrite line y from x, padding a gap
        past its end with spaces, and show what is visible of s. */
    method LineAdd(y: nat, x: nat, s: string, at: Attr, ghost v: PadView.View)
      requires v == Model() && PadView.Valid(v) && y < |v.buf|
      modifies this
      ensures Valid()
      ensures Model() == PadView.LineAdd(v, y, x, s, at).v
      ensures surface == old(surface) + PadView.LineAdd(v, y, x, s, at).ops
    {
      var sb, sa := Splice(buf[y], attr[y], x, s, at, curattr);
      ShowText(y, x, s, at, v);
      SetLine(y, sb, sa, v);
    }

    /** Replace line y and its attributes by sb and sa. */
    method SetLine(y: nat, sb: string, sa: seq<Attr>, ghost w: PadView.View)
      requires w == Model() && y < |w.buf| && y < |w.attr|
      modifies this`buf, this`attr
      ensures Model() == w.(buf := w.buf[y := sb], attr := w.attr[y := sa])
    {
      buf := buf[y := sb];
      attr := attr[y := sa];
    }

    /** `addstr([y, x,] s [, attr])`: one `_addstr` per piece of s between
        line breaks, each further piece at column 0 of the next line,
        appending a line whenever the next one is past the end.  At the
        current position, the current position ends after the last piece. */
    method Addstr(pos: Option<(nat, nat)>, s: string, at: Option<Attr>) returns (err: Option<PadView.PadErr>)
      requires Valid()
      modifies this
      ensures Valid()
      ensures match PadView.AddInsParms(old(Model()), pos, at, "insstr")
        case Err(e) => err == Some(e) && Model() == old(Model()) && surface == old(surface)
        case Ok(t) =>
          var r := PadView.Addstr(old(Model()), t.y, t.x, s, t.at, t.atCursor);
          err == None && Model() == r.v && surface == old(surface) + r.ops
    {
      var parms := PadView.AddInsParms(Model(), pos, at, "insstr");
      if parms.Err? {
        return Some(parms.error);
      }
      AddText(parms.value, s, Model());
      return None;
    }

    /** The body of `addstr` once its parameters are resolved to t. */
    method AddText(t: PadView.Target, s: string, ghost v: PadView.View)
      requires v == Model() && PadView.Valid(v) && t.y <= |v.buf|
      modifies this
      ensures Valid()
      ensures var r := PadView.Addstr(v, t.y, t.x, s, t.at, t.atCursor);
        Model() == r.v && surface == old(surface) + r.ops
    {
      ghost var s0, st := surface, PadView.Step(v, []);
      ghost var segs := Segments(s, 0);
      ghost var total := PadView.AddSegs(st.v, t.y, t.x, segs, t.at);
      AddInvStart(st.v, s, t.y, t.x, t.at);
      var y: nat, x: nat := t.y, t.x;
      var p: int := 0;
      var slen := 0;
      ghost var done: seq<string> := [];
      while p != -1
        invariant Model() == st.v && surface == s0 + st.ops
        invariant p != -1 ==> 0 <= p <= |s| && AddInv(total, st, s, p, y, x, t.at, t.y, t.x, done)
        invariant p == -1 ==> st == total && y == t.y + |segs| - 1 && x + slen == PadView.EndColumn(t.x, segs)
        decreases if p == -1 then 0 else |s| + 1 - p
      {
        p, y, x, slen, st, done := AddPass(s, p, y, x, slen, t.at, t.y, t.x, total, s0, st, done);
      }
      ghost var r := PadView.Addstr(v, t.y, t.x, s, t.at, t.atCursor);
      AddstrResult(v, t.y, t.x, s, t.at, t.atCursor);
      assert Model() == total.v && surface == old(surface) + r.ops;
      if t.atCursor {
        MoveTo(y, x + slen, total.v);
      }
      assert Model() == r.v;
    }

    /** Set the current position to (y, x). */
    method MoveTo(y: nat, x: nat, ghost w: PadView.View)
      requires w == Model()
      modifies this
      ensures Model() == w.(cury := y, curx := x) && surface == old(surface)
    {
      curx := x;
      cury := y;
    }

    /** One pass of the loop of `addstr`: the piece of s from p up to the
        next line break, or to the end when there is none. */
    method AddPass(s: string, p: nat, y: nat, x: nat, slen: nat, at: Attr, ghost y0: nat, ghost x0: nat,
                   ghost total: PadView.Step, ghost s0: seq<Op>, ghost st: PadView.Step, ghost done: seq<string>)
      returns (p': int, y': nat, x': nat, slen': nat, ghost st': PadView.Step, ghost done': seq<string>)
      requires Model() == st.v && surface == s0 + st.ops && AddInv(total, st, s, p, y, x, at, y0, x0, done)
      modifies this
      ensures Model() == st'.v && surface == s0 + st'.ops
      ensures p' != -1 ==> p < p' <= |s| && AddInv(total, st', s, p', y', x', at, y0, x0, done')
      ensures p' == -1 ==> st' == total && y' == y0 + |Segments(s, 0)| - 1 && x' + slen' == PadView.EndColumn(x0, Segments(s, 0))
    {
      var n := Find(s, '\n', p);
      if n == -1 {
        var seg := s[p..];
        AddInvLast(total, st, s, p, seg, y, x, at, y0, x0, done);
        st' := AddSeg(y, x, seg, at, s0, st);
        p', y', x', slen', done' := -1, y, x, |s| - p, done + [seg];
      } else {
        var seg := s[p..n];
        AddInvNext(total, st, s, p, n, seg, y, x, at, y0, x0, done);
        st' := AddSeg(y, x, seg, at, s0, st);
        p', y', x', slen', done' := n + 1, y + 1, 0, slen, done + [seg];
      }
    }

    /** One pass of the loop of `addstr`: append a line when y is past the
        end of the buffer, then `_addstr` the piece seg at (y, x). */
    method AddSeg(y: nat, x: nat, seg: string, at: Attr, ghost s0: seq<Op>, ghost st: PadView.Step) returns (ghost st': PadView.Step)
      requires Model() == st.v && surface == s0 + st.ops && PadView.Valid(st.v) && y <= |st.v.buf|
      modifies this
      ensures Valid() && st' == AddSegTo(st, y, x, seg, at)
      ensures Model() == st'.v && surface == s0 + st'.ops
    {
      ghost var v := st.v;
      ghost var r1 := if y >= |v.buf| then PadView.InsertLn(v, y, false) else PadView.Step(v, []);
      if y >= |buf| {
        var e := Insertln(Some(y));
      }
      assert Model() == r1.v && surface == old(surface) + r1.ops;
      ghost var r2 := PadView.LineAdd(r1.v, y, x, seg, at);
      LineAdd(y, x, seg, at, r1.v);
      AppendAssoc(old(surface), r1.ops, r2.ops);
      AppendAssoc(s0, st.ops, r1.ops + r2.ops);
      st' := AddSegTo(st, y, x, seg, at);
      assert st'.v == r2.v;
    }

    /** `insertln([y])`: an empty line at y, by default the current line. */
    method Insertln(y: Option<nat>) returns (err: Option<PadView.PadErr>)
      requires Valid()
      modifies this
      ensures Valid()
      ensures var yy := y.GetOr(old(cury));
        if yy > |old(buf)| then
          err == Some(PadView.PadErr("insertln", yy, |old(buf)|)) &&
          Model() == old(Model()) && surface == old(surface)
        else
          var r := PadView.InsertLn(old(Model()), yy, y.None?);
          err == None && Model() == r.v && surface == old(surface) + r.ops
    {
      ghost var v := Model();
      var atcursor := y.None?;
      var yy := y.GetOr(cury);
      if yy > |buf| {
        return Some(PadView.PadErr("insertln", yy, |buf|));
      }
      ghost var r := PadView.InsertLn(v, yy, atcursor);
      buf := buf[..yy] + [""] + buf[yy..];
      attr := attr[..yy] + [[]] + attr[yy..];
      var py := PadView.DisplayPosY(Model(), yy);
      if py >= 0 {
        surface := surface + [InsertLine(py)];
      }
      assert surface == old(surface) + r.ops;
      if cury > yy && !atcursor {
        cury := cury + 1;
      }
      if topy > yy {
        topy := topy + 1;
      }
      assert Model() == r.v;
      return None;
    }

    /** `deleteln([y])`: remove line y, by default the current line. */
    method Deleteln(y: Option<nat>) returns (err: Option<PadView.PadErr>)
      requires Valid()
      modifies this
      ensures Valid()
      ensures var yy := y.GetOr(old(cury));
        if yy >= |old(buf)| then
          err == Some(PadView.PadErr("deleteln", yy, |old(buf)| - 1)) &&
          Model() == old(Model()) && surface == old(surface)
        else
          var r := PadView.Deleteln(old(Model()), yy);
          err == None && Model() == r.v && surface == old(surface) + r.ops
    {
      var yy := y.GetOr(cury);
      if yy >= |buf| {
        return Some(PadView.PadErr("deleteln", yy, |buf| - 1));
      }
      DeleteAt(yy, Model());
      return None;
    }

    /** The body of `deleteln` once its line is resolved to y. */
    method DeleteAt(y: nat, ghost v: PadView.View)
      requires v == Model() && PadView.Valid(v) && y < |v.buf|
      modifies this
      ensures Valid()
      ensures Model() == PadView.Deleteln(v, y).v && surface == old(surface) + PadView.Deleteln(v, y).ops
    {
      ghost var s0 := surface;
      ghost var v1 := PadView.DeleteRow(v, y);
      ghost var ops1 := PadView.DeleteRowOps(v1, PadView.DisplayPosY(v, y));
      DeleteRow(y, v);
      DeletelnSplit(v, y);
      Reposition(y, v, v1);
      AppendAssoc(s0, ops1, AfterDelete(v, y).ops);
    }

    /** The second half of `deleteln(y)`, on the buffer v1 without line y:
        the window moves up when its top line is gone, and the top line
        and current line move up past the deleted line. */
    method Reposition(y: nat, ghost v: PadView.View, ghost v1: PadView.View)
      requires PadView.Valid(v) && y < |v.buf| && v1 == PadView.DeleteRow(v, y) && Model() == v1
      modifies this
      ensures Model() == AfterDelete(v, y).v && surface == old(surface) + AfterDelete(v, y).ops
    {
      if topy >= |buf| {
        if topy > 0 {
          var ncury := if topy == cury || cury > y then cury - 1 else cury;
          ghost var v2 := v1.(cury := ncury, topy := v.topy - 1);
          SetRows(topy - 1, ncury, v1);
          RedispLine(0, v2);
        }
      } else {
        SetRows(if topy > y then topy - 1 else topy, if cury > y then cury - 1 else cury, v1);
      }
    }

    /** Set the top line of the window and the current line. */
    method SetRows(top: nat, cy: nat, ghost w: PadView.View)
      requires w == Model()
      modifies this
      ensures Model() == w.(topy := top, cury := cy) && surface == old(surface)
    {
      cury := cy;
      topy := top;
    }

    /** The first half of `deleteln(y)`: remove line y and, when it was
        shown, its window row, redrawing the bottom row if the buffer
        reaches it. */
    method DeleteRow(y: nat, ghost v: PadView.View)
      requires v == Model() && PadView.Valid(v) && y < |v.buf|
      modifies this`buf, this`attr, this`surface
      ensures Model() == PadView.DeleteRow(v, y)
      ensures surface == old(surface) + PadView.DeleteRowOps(PadView.DeleteRow(v, y), PadView.DisplayPosY(v, y))
    {
      buf := buf[..y] + buf[y + 1..];
      attr := attr[..y] + attr[y + 1..];
      ghost var v1 := Model();
      assert v1 == PadView.DeleteRow(v, y);
      var py := PadView.DisplayPosY(Model(), y);
      assert py == PadView.DisplayPosY(v, y);
      if py >= 0 {
        surface := surface + [DeleteLine(py)];
        if topy + nlines <= |buf| {
          DeleteRowOpsBottom(v1, py);
          RedispLine(nlines - 1, v1);
          AppendAssoc(old(surface), [DeleteLine(py)], PadView.RedispLine(v1, nlines - 1));
        } else {
          assert [DeleteLine(py)] + [] == [DeleteLine(py)];
        }
      }
    }

    /** `scrolly(count)`: move the window count lines down the buffer
        (negative: up). */
    method Scrolly(count: int)
      requires Valid()
      modifies this
      ensures Valid()
      ensures Model() == PadView.Scrolly(old(Model()), count).v
      ensures surface == old(surface) + PadView.Scrolly(old(Model()), count).ops
    {
      if count < 0 {
        ScrollBack(-count);
      } else if count > 0 {
        ScrollForward(count);
      }
    }

    /** The branch of `scrolly` that moves the window count lines up. */
    method ScrollBack(count: int)
      requires Valid() && count > 0
      modifies this
      ensures Valid()
      ensures Model() == PadView.Scrolly(old(Model()), -count).v
      ensures surface == old(surface) + PadView.Scrolly(old(Model()), -count).ops
    {
      ghost var r := PadView.Scrolly(Model(), -count);
      var c := count;
      if topy == 0 {
        assert r == PadView.Step(old(Model()), []);
        return;
      }
      if c > topy {
        c := topy;
      }
      topy := topy - c;
      assert r == PadView.Step(Model(), PadView.ShiftOps(Model(), c, false));
      Shift(c, false, r.v);
    }

    /** The branch of `scrolly` that moves the window count lines down. */
    method ScrollForward(count: int)
      requires Valid() && count > 0
      modifies this
      ensures Valid()
      ensures Model() == PadView.Scrolly(old(Model()), count).v
      ensures surface == old(surface) + PadView.Scrolly(old(Model()), count).ops
    {
      ghost var r := PadView.Scrolly(Model(), count);
      if topy + nlines >= |buf| {
        assert r == PadView.Step(old(Model()), []);
        return;
      }
      var c := count;
      if topy + c >= |buf| {
        c := |buf| - topy - 1;
      }
      topy := topy + c;
      assert r == PadView.Step(Model(), PadView.ShiftOps(Model(), c, true));
      Shift(c, true, r.v);
    }

    /** The redraw that follows the move of `scrolly` (`PadView.ShiftOps`). */
    method Shift(c: nat, forward: bool, ghost w: PadView.View)
      requires w == Model() && PadView.Parallel(w)
      modifies this`surface
      ensures surface == old(surface) + PadView.ShiftOps(w, c, forward)
    {
      if c >= nlines {
        Redraw(w);
      } else if forward {
        var lo := nlines - c - 1;
        ShiftRows(DeleteLine(0), c, lo, nlines, w);
      } else {
        ShiftRows(InsertLine(0), c, 0, c, w);
      }
    }

    /** The partial scroll of `scrolly`: shift the window's rows with count
        insertions or deletions op, then redraw the rows lo up to hi that it
        exposed. */
    method ShiftRows(op: Op, count: nat, lo: nat, hi: int, ghost v: PadView.View)
      requires v == Model() && PadView.Parallel(v)
      modifies this`surface
      ensures surface == old(surface) + (Repeat(op, count) + PadView.RedispRows(v, lo, hi))
    {
      for i := 0 to count
        invariant surface == old(surface) + Repeat(op, i)
      {
        assert Repeat(op, i) + [op] == Repeat(op, i + 1);
        AppendAssoc(old(surface), Repeat(op, i), [op]);
        surface := surface + [op];
      }
      RedispRows(lo, hi, v);
      AppendAssoc(old(surface), Repeat(op, count), PadView.RedispRows(v, lo, hi));
    }

    /** `scrollx(count)`: move the window count columns right (negative:
        left), never left of column 0, and redraw it. */
    method Scrollx(count: int)
      requires Valid()
      modifies this
      ensures Valid()
      ensures Model() == PadView.Scrollx(old(Model()), count).v
      ensures surface == old(surface) + PadView.Scrollx(old(Model()), count).ops
    {
      ghost var r := PadView.Scrollx(Model(), count);
      if count == 0 {
        return;
      }
      if topx + count < 0 {
        topx := 0;
      } else {
        topx := topx + count;
      }
      assert Model() == r.v;
      Redraw(r.v);
    }

    /** `getbegyx`. */
    function Getbegyx(): (int, int)
      reads this
    {
      PadView.Getbegyx(Model())
    }

    /** `getmaxyx`. */
    function Getmaxyx(): (int, int)
      reads this
    {
      PadView.Getmaxyx(Model())
    }

    /** `getFirstDisplayedLine`. */
    function GetFirstDisplayedLine(): int
      reads this
    {
      PadView.GetFirstDisplayedLine(Model())
    }

    /** `getLastDisplayedLine`. */
    function GetLastDisplayedLine(): int
      reads this
    {
      PadView.GetLastDisplayedLine(Model())
    }

    /** `getxy`. */
    function Getxy(): (int, int)
      reads this
    {
      PadView.Getxy(Model())
    }

    /** `move(y, x)`: y must be a line of the buffer. */
    method Move(y: nat, x: nat) returns (err: Option<PadView.PadErr>)
      requires Valid()
      modifies this
      ensures Valid() && surface == old(surface)
      ensures y >= |old(buf)| ==> err == Some(PadView.PadErr("move to line", y, |old(buf)| - 1)) && Model() == old(Model())
      ensures y < |old(buf)| ==> err == None && Model() == PadView.Move(old(Model()), y, x)
    {
      if y >= |buf| {
        return Some(PadView.PadErr("move to line", y, |buf| - 1));
      }
      cury := y;
      curx := x;
      return None;
    }

    /** `insstr([y, x,] s [, attr])` on its well-defined path: at the end of
        the buffer it is `addstr`; inside a line it cuts the tail from x,
        writes s at x, and puts the tail back after s one attribute run at a
        time, then refreshes.  The current position moves with the tail. */
    method Insstr(pos: Option<(nat, nat)>, s: string, at: Option<Attr>) returns (err: Option<PadView.PadErr>)
      requires Valid() && PadView.InsstrDefined(Model(), pos, s)
      modifies this
      ensures Valid()
      ensures match PadView.AddInsParms(old(Model()), pos, at, "insstr")
        case Err(e) => err == Some(e) && Model() == old(Model()) && surface == old(surface)
        case Ok(t) =>
          var r := PadView.Insstr(old(Model()), t.y, t.x, s, t.at, t.atCursor);
          err == None && Model() == r.v && surface == old(surface) + r.ops
    {
      var parms := PadView.AddInsParms(Model(), pos, at, "insstr");
      if parms.Err? {
        return Some(parms.error);
      }
      InsText(parms.value, s, Model());
      return None;
    }

    /** The body of `insstr` once its parameters are resolved to t. */
    method InsText(t: PadView.Target, s: string, ghost v: PadView.View)
      requires v == Model() && PadView.Valid(v) && t.y <= |v.buf|
      requires t.y < |v.buf| ==> t.x < |v.buf[t.y]| && '\n' !in s
      modifies this
      ensures Valid()
      ensures var r := PadView.Insstr(v, t.y, t.x, s, t.at, t.atCursor);
        Model() == r.v && surface == old(surface) + r.ops
    {
      var y: nat, x: nat := t.y, t.x;
      if y >= |buf| {
        AddText(PadView.Target(y, x, t.at, false), s, v);
        return;
      }
      ghost var s0 := surface;
      var afterb := buf[y][x..];
      var aftera := attr[y][x..];
      ghost var r1 := PadView.Clrtoeol(v, y, x);
      ClearFrom(y, x, v);
      // s has no line break, so no lines are inserted to make room for it.
      ghost var r2 := PadView.Addstr(r1.v, y, x, s, t.at, false);
      AddText(PadView.Target(y, x, t.at, false), s, r1.v);
      var nx := |buf[y]|;
      RunsOnRow(y, nx, afterb, aftera);
      ghost var r3 := PadView.ApplyWrites(r2.v, Runs(y, nx, afterb, aftera));
      PutTail(y, nx, afterb, aftera, r2.v);
      ghost var s3 := surface;
      Refresh();
      InsstrIs(v, y, x, s, t.at, t.atCursor, r1, r2, nx, afterb, aftera, r3);
      AppendAssoc(s0, r1.ops, r2.ops);
      AppendAssoc(s0, r1.ops + r2.ops, r3.ops);
      AppendAssoc(s0, r1.ops + r2.ops + r3.ops, PadView.Refresh(r3.v));
      InsCursor(y, x, nx, t.atCursor, r3.v);
    }

    /** Where `insstr` leaves the current position: after the inserted text
        at the cursor, else moved right with the tail when it was on the
        tail. */
    method InsCursor(y: nat, x: nat, nx: nat, atCursor: bool, ghost w: PadView.View)
      requires w == Model()
      modifies this
      ensures Model() == InsMoved(w, y, x, nx, atCursor) && surface == old(surface)
    {
      if atCursor {
        MoveTo(y, nx, w);
      } else if cury == y && curx >= x {
        MoveTo(y, curx - x + nx, w);
      }
    }

    /** The loop of `insstr` that puts the cut tail tb (attributes ta) back
        at column col of line y: one `_addstr` per run of equal attribute,
        the last run after the loop. */
    method PutTail(y: nat, col: nat, tb: string, ta: seq<Attr>, ghost v: PadView.View)
      requires v == Model() && PadView.Valid(v) && y < |v.buf| && |tb| == |ta| && |ta| > 0
      requires PadView.LineWrites(v, Runs(y, col, tb, ta))
      modifies this
      ensures Model() == PadView.PutLines(v, Runs(y, col, tb, ta))
      ensures surface == old(surface) + PadView.DrawSpans(v, Runs(y, col, tb, ta))
    {
      ghost var s0, st := surface, PadView.Step(v, []);
      TailInvStart(v, y, col, tb, ta);
      var ca := ta[0];
      var beg := 0;
      for i := 1 to |ta|
        invariant beg < i && ca == ta[beg]
        invariant Uniform(ta, beg, i, ca)
        invariant Model() == st.v && surface == s0 + st.ops
        invariant TailInv(v, st, y, col, tb, ta, beg)
      {
        if ta[i] != ca {
          var seg := tb[beg..i];
          st := PutStep(y, col, tb, ta, beg, i, seg, ca, v, s0, st);
          ca := ta[i];
          beg := i;
        }
        UniformExtend(ta, beg, i, ca);
      }
      var seg := tb[beg..];
      assert tb[beg..|ta|] == seg;
      st := PutStep(y, col, tb, ta, beg, |ta|, seg, ca, v, s0, st);
      TailInvDone(v, st, y, col, tb, ta);
    }

    /** One `_addstr` of the tail loop of `insstr`: the run from beg up to k. */
    method PutStep(y: nat, col: nat, tb: string, ta: seq<Attr>, beg: nat, k: nat, seg: string, at: Attr,
                   ghost v: PadView.View, ghost s0: seq<Op>, ghost st: PadView.Step) returns (ghost st': PadView.Step)
      requires Model() == st.v && surface == s0 + st.ops && TailInv(v, st, y, col, tb, ta, beg)
      requires beg < k <= |ta| && seg == tb[beg..k] && at == ta[beg]
      requires Uniform(ta, beg, k, ta[beg])
      requires k < |ta| ==> ta[k] != ta[beg]
      modifies this
      ensures Model() == st'.v && surface == s0 + st'.ops && TailInv(v, st', y, col, tb, ta, k)
    {
      TailInvStep(v, st, y, col, tb, ta, beg, k, seg, at);
      ghost var add := PadView.LineAdd(st.v, y, col + beg, seg, at);
      ghost var s1 := surface;
      LineAdd(y, col + beg, seg, at, st.v);
      assert Model() == add.v && surface == s1 + add.ops;
      AppendAssoc(s0, st.ops, add.ops);
      st' := AddTo(st, y, col + beg, seg, at);
      assert st' == PadView.Step(add.v, st.ops + add.ops);
    }

    /** `delch([y, x])`: remove the character at (y, x), by default the
        current position. */
    method Delch(pos: Option<(nat, nat)>) returns (err: Option<PadView.PadErr>)
      requires Valid()
      modifies this
      ensures Valid()
      ensures match PadView.YxParms(old(Model()), pos, "delch")
        case Err(e) => err == Some(e) && Model() == old(Model()) && surface == old(surface)
        case Ok(p) =>
          var r := PadView.Delch(old(Model()), p.0, p.1);
          err == None && Model() == r.v && surface == old(surface) + r.ops
    {
      var parms := PadView.YxParms(Model(), pos, "delch");
      if parms.Err? {
        return Some(parms.error);
      }
      var (y, x) := parms.value;
      var b := buf[y];
      if x >= |b| {
        return None;
      }
      var a := attr[y];
      var dp := PadView.DisplayPos(Model(), y, x, 1);
      buf := buf[y := b[..x] + b[x + 1..]];
      attr := attr[y := a[..x] + a[x + 1..]];
      if dp.Some? {
        surface := surface + [DelCh(dp.value.0, dp.value.1)];
      }
      return None;
    }

    /** `clrtoeol([y, x])`: cut line y at x, by default at the current
        position. */
    method Clrtoeol(pos: Option<(nat, nat)>) returns (err: Option<PadView.PadErr>)
      requires Valid()
      modifies this
      ensures Valid()
      ensures match PadView.YxParms(old(Model()), pos, "clrtoeol")
        case Err(e) => err == Some(e) && Model() == old(Model()) && surface == old(surface)
        case Ok(p) =>
          var r := PadView.Clrtoeol(old(Model()), p.0, p.1);
          err == None && Model() == r.v && surface == old(surface) + r.ops
    {
      var parms := PadView.YxParms(Model(), pos, "clrtoeol");
      if parms.Err? {
        return Some(parms.error);
      }
      ClearFrom(parms.value.0, parms.value.1, Model());
      return None;
    }

    /** The body of `clrtoeol` once its position is resolved to (y, x). */
    method ClearFrom(y: nat, x: nat, ghost v: PadView.View)
      requires v == Model() && PadView.Valid(v) && y < |v.buf|
      modifies this
      ensures Valid()
      ensures Model() == PadView.Clrtoeol(v, y, x).v && surface == old(surface) + PadView.Clrtoeol(v, y, x).ops
    {
      var b := buf[y];
      var slen := |b| - x;
      if slen <= 0 {
        return;
      }
      var a := attr[y];
      var dp := PadView.DisplayPos(Model(), y, x, slen);
      buf := buf[y := b[..x]];
      attr := attr[y := a[..x]];
      if dp.Some? {
        surface := surface + [ClearToEol(dp.value.0, Max(dp.value.1, 0))];
      }
    }
  }
}
