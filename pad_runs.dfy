/** How one buffer line is redrawn (`FlexScrollPad._redispLine`): the
    visible part of the line is cut into maximal runs of characters sharing
    one attribute, and each run is issued as a single window write. */
module PadRuns {
  import opened Surface
  import opened Text

  /** Length of the leading run of equal attributes of a. */
  function RunLength(a: seq<Attr>): (k: nat)
    requires |a| > 0
    ensures 1 <= k <= |a|
  {
    if |a| == 1 || a[1] != a[0] then 1 else 1 + RunLength(a[1..])
  }

  /** The leading run is a run, and a longest one. */
  lemma {:induction false} RunLengthRun(a: seq<Attr>)
    requires |a| > 0
    ensures forall j :: 0 <= j < RunLength(a) ==> a[j] == a[0]
    ensures RunLength(a) < |a| ==> a[RunLength(a)] != a[0]
  {
    if !(|a| == 1 || a[1] != a[0]) {
      RunLengthRun(a[1..]);
      assert forall j :: 0 < j < |a| ==> a[1..][j - 1] == a[j];
    }
  }

  /** The leading run length is pinned down by where the attribute changes. */
  lemma {:induction false} RunLengthAt(a: seq<Attr>, k: nat)
    requires 0 < k <= |a|
    requires forall j :: 0 <= j < k ==> a[j] == a[0]
    requires k < |a| ==> a[k] != a[0]
    ensures RunLength(a) == k
  {
    if k > 1 {
      var b := a[1..];
      assert b[0] == a[1] == a[0];
      forall j | 0 <= j < k - 1
        ensures b[j] == b[0]
      {
        assert b[j] == a[j + 1];
      }
      assert k - 1 < |b| ==> b[k - 1] == a[k];
      RunLengthAt(b, k - 1);
    }
  }

  /** The writes that redraw text t (with attributes a) on window row `row`
      starting at window column `col`: one write per maximal run. */
  function Runs(row: int, col: int, t: string, a: seq<Attr>): seq<Op>
    requires |t| == |a|
    decreases |a|
  {
    if |a| == 0 then []
    else
      var k := RunLength(a);
      [Write(row, col, t[..k], a[0])] + Runs(row, col + k, t[k..], a[k..])
  }

  /** Every run is a write on row `row`, from column `col` on. */
  lemma {:induction false} RunsOnRow(row: int, col: int, t: string, a: seq<Attr>)
    requires |t| == |a|
    ensures forall i :: 0 <= i < |Runs(row, col, t, a)| ==>
      Runs(row, col, t, a)[i].Write? && Runs(row, col, t, a)[i].row == row && Runs(row, col, t, a)[i].col >= col
    decreases |a|
  {
    if |a| > 0 {
      var k := RunLength(a);
      RunsOnRow(row, col + k, t[k..], a[k..]);
      var rest := Runs(row, col + k, t[k..], a[k..]);
      assert Runs(row, col, t, a) == [Write(row, col, t[..k], a[0])] + rest;
    }
  }

  /** RunsSplit for the runs of t from index beg, drawn from column c:
      the run from beg up to k, then the runs from k, drawn from column d
      just past it. */
  lemma RunsFrom(row: int, c: int, d: int, t: string, a: seq<Attr>, beg: nat, k: nat)
    requires |t| == |a| && beg < k <= |a| && d == c + (k - beg)
    requires forall j :: beg <= j < k ==> a[j] == a[beg]
    requires k < |a| ==> a[k] != a[beg]
    ensures Runs(row, c, t[beg..], a[beg..]) == [Write(row, c, t[beg..k], a[beg])] + Runs(row, d, t[k..], a[k..])
  {
    var t', a' := t[beg..], a[beg..];
    forall j | 0 <= j < k - beg
      ensures a'[j] == a'[0]
    {
      assert a'[j] == a[beg + j];
    }
    assert k - beg < |a'| ==> a'[k - beg] == a[k];
    assert t'[..k - beg] == t[beg..k];
    assert t'[k - beg..] == t[k..];
    assert a'[k - beg..] == a[k..];
    RunsSplit(row, c, d, t', a', k - beg, t[beg..k], t[k..], a[k..]);
  }

  /** Taking the runs off the front: once the attribute changes at k, the
      runs of t are the run t1 = t[..k] followed by the runs of t2 = t[k..]
      drawn from column d, just past it. */
  lemma RunsSplit(row: int, c: int, d: int, t: string, a: seq<Attr>, k: nat, t1: string, t2: string, a2: seq<Attr>)
    requires |t| == |a| && 0 < k <= |a| && d == c + k
    requires forall j :: 0 <= j < k ==> a[j] == a[0]
    requires k < |a| ==> a[k] != a[0]
    requires t1 == t[..k] && t2 == t[k..] && a2 == a[k..]
    ensures Runs(row, c, t, a) == [Write(row, c, t1, a[0])] + Runs(row, d, t2, a2)
  {
    RunLengthAt(a, k);
  }

  /** The last run: once the attribute no longer changes after beg, the rest
      of t is one write. */
  lemma RunsLast(row: int, c: int, t: string, a: seq<Attr>, beg: nat)
    requires |t| == |a| && beg < |a|
    requires forall j :: beg <= j < |a| ==> a[j] == a[beg]
    ensures Runs(row, c, t[beg..], a[beg..]) == [Write(row, c, t[beg..], a[beg])]
  {
    var t', a' := t[beg..], a[beg..];
    forall j | 0 <= j < |a'|
      ensures a'[j] == a'[0]
    {
      assert a'[j] == a[beg + j];
    }
    assert t'[..|a'|] == t';
    assert t'[|a'|..] == [] && a'[|a'|..] == [];
    RunsSplit(row, c, c + |a'|, t', a', |a'|, t', [], []);
  }

  /** Every operation in ops is a write. */
  predicate AllWrites(ops: seq<Op>)
  {
    forall i :: 0 <= i < |ops| ==> ops[i].Write?
  }

  /** The texts of a sequence of writes, concatenated in order. */
  function Texts(ops: seq<Op>): string
    requires AllWrites(ops)
  {
    if ops == [] then [] else ops[0].text + Texts(ops[1..])
  }

  /** The attribute of every character the writes put on the window, in
      order. */
  function CellAttrs(ops: seq<Op>): seq<Attr>
    requires AllWrites(ops)
  {
    if ops == [] then [] else Repeat(ops[0].attr, |ops[0].text|) + CellAttrs(ops[1..])
  }

  /** Coalescing loses nothing: the runs' texts, concatenated, are the line,
      and their attributes, spread over their characters, are the line's
      attributes.  So a run-coalesced redraw shows exactly what one write per
      character would. */
  lemma RunsCover(row: int, col: int, t: string, a: seq<Attr>)
    requires |t| == |a|
    ensures AllWrites(Runs(row, col, t, a))
    ensures Texts(Runs(row, col, t, a)) == t
    ensures CellAttrs(Runs(row, col, t, a)) == a
  {
    RunsTexts(row, col, t, a);
    RunsAttrs(row, col, t, a);
  }

  lemma {:induction false} RunsTexts(row: int, col: int, t: string, a: seq<Attr>)
    requires |t| == |a|
    ensures AllWrites(Runs(row, col, t, a))
    ensures Texts(Runs(row, col, t, a)) == t
    decreases |a|
  {
    if |a| > 0 {
      var k := RunLength(a);
      var rest := Runs(row, col + k, t[k..], a[k..]);
      RunsTexts(row, col + k, t[k..], a[k..]);
      var ops := Runs(row, col, t, a);
      assert ops == [Write(row, col, t[..k], a[0])] + rest;
      assert ops[1..] == rest;
      assert Texts(ops) == t[..k] + Texts(rest);
      assert t == t[..k] + t[k..];
    }
  }

  lemma {:induction false} RunsAttrs(row: int, col: int, t: string, a: seq<Attr>)
    requires |t| == |a|
    ensures AllWrites(Runs(row, col, t, a))
    ensures CellAttrs(Runs(row, col, t, a)) == a
    decreases |a|
  {
    if |a| == 0 {
      assert Runs(row, col, t, a) == [];
    } else {
      var k := RunLength(a);
      RunsAttrs(row, col + k, t[k..], a[k..]);
      RunsAttrsStep(row, col, t, a, k, Runs(row, col + k, t[k..], a[k..]));
    }
  }

  /** The step of RunsAttrs: the leading run, then the rest. */
  lemma RunsAttrsStep(row: int, col: int, t: string, a: seq<Attr>, k: nat, rest: seq<Op>)
    requires |t| == |a| && |a| > 0 && k == RunLength(a)
    requires rest == Runs(row, col + k, t[k..], a[k..])
    requires AllWrites(rest) && CellAttrs(rest) == a[k..]
    ensures AllWrites(Runs(row, col, t, a))
    ensures CellAttrs(Runs(row, col, t, a)) == a
  {
    var w := Write(row, col, t[..k], a[0]);
    assert Runs(row, col, t, a) == [w] + rest;
    CellAttrsCons(w, rest);
    assert |w.text| == k;
    RunLengthRun(a);
    LeadingRun(a, k);
  }

  lemma CellAttrsCons(w: Op, rest: seq<Op>)
    requires w.Write? && AllWrites(rest)
    ensures AllWrites([w] + rest)
    ensures CellAttrs([w] + rest) == Repeat(w.attr, |w.text|) + CellAttrs(rest)
  {
    assert ([w] + rest)[1..] == rest;
  }

  lemma LeadingRun(a: seq<Attr>, k: nat)
    requires 0 < k <= |a|
    requires forall j :: 0 <= j < k ==> a[j] == a[0]
    ensures a == Repeat(a[0], k) + a[k..]
  {
    assert a[..k] == Repeat(a[0], k);
    assert a == a[..k] + a[k..];
  }

  /** The runs are maximal and laid end to end: every write is non-empty and
      on row `row`, the first starts at `col`, each starts where the previous
      ended, and neighbouring writes have different attributes. */
  lemma {:induction false} RunsMaximal(row: int, col: int, t: string, a: seq<Attr>)
    requires |t| == |a|
    ensures AllWrites(Runs(row, col, t, a))
    ensures |Runs(row, col, t, a)| > 0 ==> Runs(row, col, t, a)[0].col == col
    ensures forall i :: 0 <= i < |Runs(row, col, t, a)| ==>
      Runs(row, col, t, a)[i].row == row && Runs(row, col, t, a)[i].text != []
    ensures forall i :: 0 <= i < |Runs(row, col, t, a)| - 1 ==>
      Runs(row, col, t, a)[i + 1].col == Runs(row, col, t, a)[i].col + |Runs(row, col, t, a)[i].text| &&
      Runs(row, col, t, a)[i + 1].attr != Runs(row, col, t, a)[i].attr
    decreases |a|
  {
    if |a| > 0 {
      var k := RunLength(a);
      RunLengthRun(a);
      RunsMaximal(row, col + k, t[k..], a[k..]);
      var rest := Runs(row, col + k, t[k..], a[k..]);
      if |rest| > 0 {
        assert rest[0] == Write(row, col + k, t[k..][..RunLength(a[k..])], a[k..][0]);
      }
    }
  }

  /** Every write of the runs ends by the end of t. */
  lemma {:induction false} RunsWithin(row: int, col: int, t: string, a: seq<Attr>)
    requires |t| == |a|
    ensures AllWrites(Runs(row, col, t, a))
    ensures forall i :: 0 <= i < |Runs(row, col, t, a)| ==>
      Runs(row, col, t, a)[i].col + |Runs(row, col, t, a)[i].text| <= col + |t|
    decreases |a|
  {
    if |a| > 0 {
      var k := RunLength(a);
      RunsWithin(row, col + k, t[k..], a[k..]);
      RunsOnRow(row, col, t, a);
      var rest := Runs(row, col + k, t[k..], a[k..]);
      assert Runs(row, col, t, a) == [Write(row, col, t[..k], a[0])] + rest;
    }
  }
}
