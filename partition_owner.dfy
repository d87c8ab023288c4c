/** The disk-layout rules of something that holds partitions (a disk, or an
    extended partition holding logical ones): aligning sector numbers, the
    list of used areas, checking that an area is free, and the first free
    hole `addCmd` proposes for a new partition. */
module PartitionOwner {
  import opened Wrappers
  import opened Sorting

  /** A partition: its first sector and its size in sectors. */
  datatype Part = Part(sectstart: int, numsects: int)

  /** What the disk label reserves: sectors at the beginning and at the
      end, sectors before every partition (the extended partition's
      per-partition header), and how many partitions it can hold. */
  datatype Label = Label(reservedBeginning: int, reservedEnd: int, reservedSkip: int, maxPartitions: int)

  /** The owner's partitions and geometry: its size in sectors, the sector
      its area starts at, its label and its two alignments. */
  datatype Owner = Owner(partitions: seq<Part>, numsects: int, partitionOffset: int, table: Label,
                         minalign: int, optalign: int)

  /** `getAlignInfo` makes both alignments at least 1. */
  predicate Aligned(o: Owner)
  {
    o.minalign >= 1 && o.optalign >= 1
  }

  /** `_doAlignV(v, alignv, round_up)`.  For a positive divisor Python's
      `%` and Dafny's agree. */
  function AlignV(v: int, alignv: int, roundUp: bool): int
    requires alignv >= 1
  {
    var m := v % alignv;
    if m != 0 then (if roundUp then v + (alignv - m) else v - m) else v
  }

  /** Rounding up gives the least multiple of alignv that is at least v,
      rounding down the greatest that is at most v, and a multiple is kept
      either way. */
  lemma AlignVIs(v: int, alignv: int, roundUp: bool)
    requires alignv >= 1
    ensures var r := AlignV(v, alignv, roundUp);
      r % alignv == 0 &&
      (roundUp ==> v <= r < v + alignv && forall m :: m % alignv == 0 && m >= v ==> m >= r) &&
      (!roundUp ==> v - alignv < r <= v && forall m :: m % alignv == 0 && m <= v ==> m <= r) &&
      (v % alignv == 0 ==> r == v)
  {
    var r := AlignV(v, alignv, roundUp);
    var d := v - v % alignv;
    DownMultiple(v, alignv, 0);
    DownMultiple(v, alignv, 1);
    assert d % alignv == 0 && (d + alignv) % alignv == 0 by {
      assert d + 0 * alignv == d && d + 1 * alignv == d + alignv;
    }
    if v % alignv != 0 {
      if roundUp {
        forall m | m % alignv == 0 && m >= v
          ensures m >= r
        {
          BetweenMultiples(m, alignv, d);
        }
      } else {
        forall m | m % alignv == 0 && m <= v
          ensures m <= r
        {
          if m > d {
            BetweenMultiples(m, alignv, d);
          }
        }
      }
    }
  }

  /** v minus its remainder is a multiple; so is one more alignment. */
  lemma DownMultiple(v: int, a: int, k: int)
    requires a >= 1
    ensures (v - v % a + k * a) % a == 0
  {
    var q := v / a;
    assert v - v % a == q * a;
    assert v - v % a + k * a == (q + k) * a;
    MultipleMod(q + k, a);
  }

  lemma MultipleMod(p: int, a: int)
    requires a >= 1
    ensures (p * a) % a == 0
  {
    var x := p * a;
    var d := x / a;
    var m := x % a;
    assert x == d * a + m;
    assert (p - d) * a == m;
    MulSign(p - d, a);
  }

  lemma MulSign(k: int, a: int)
    requires a >= 1
    ensures k >= 1 ==> k * a >= a
    ensures k <= -1 ==> k * a <= -a
  {
    if k >= 1 {
      assert (k - 1) * a >= 0;
    } else if k <= -1 {
      assert (-k - 1) * a >= 0;
    }
  }

  /** A multiple of a is p * a for some p. */
  lemma MultipleIs(m: int, a: int) returns (p: int)
    requires a >= 1 && m % a == 0
    ensures m == p * a
  {
    p := m / a;
  }

  lemma BetweenMultiples(m: int, a: int, lo: int)
    requires a >= 1 && m % a == 0 && lo % a == 0 && lo < m
    ensures m >= lo + a
  {
    var p := MultipleIs(m, a);
    var q := MultipleIs(lo, a);
    assert (p - q) * a == m - lo;
    MulSign(p - q, a);
    assert (p - q - 1) * a == m - lo - a;
    MulSign(p - q - 1, a);
  }

  /** The alignment a partition uses: the optimal one when it asks for
      it, the minimal one otherwise. */
  function Alignment(o: Owner, alignOpt: bool): int
  {
    if alignOpt then o.optalign else o.minalign
  }

  /** `alignValue(p, v, round_up)`, with `p.align_opt` as alignOpt. */
  function AlignValue(o: Owner, alignOpt: bool, v: int, roundUp: bool): int
    requires Aligned(o)
  {
    AlignV(v, Alignment(o, alignOpt), roundUp)
  }

  /** The areas before sorting: one per partition, from its first sector
      to one past its last, then the reserved end when there is one. */
  function Areas(o: Owner): seq<Area>
  {
    PartAreas(o.partitions) +
    (if o.table.reservedEnd != 0 then [(o.numsects - o.table.reservedEnd, o.numsects)] else [])
  }

  function PartAreas(ps: seq<Part>): (r: seq<Area>)
    ensures |r| == |ps| && forall k :: 0 <= k < |ps| ==> r[k] == (ps[k].sectstart, ps[k].sectstart + ps[k].numsects)
  {
    seq(|ps|, k requires 0 <= k < |ps| => (ps[k].sectstart, ps[k].sectstart + ps[k].numsects))
  }

  /** `getUsedAreas()`. */
  function UsedAreas(o: Owner): seq<Area>
  {
    SortAreas(Areas(o))
  }

  /** The used areas are in order, and are exactly the partitions' areas
      and the reserved end. */
  lemma UsedAreasAre(o: Owner)
    ensures AreasSorted(UsedAreas(o)) && multiset(UsedAreas(o)) == multiset(Areas(o))
  {
    SortAreasSorted(Areas(o));
  }

  /** `getUsedAreas()`: the collecting loop, then the sort. */
  method GetUsedAreas(o: Owner) returns (used: seq<Area>)
    ensures used == UsedAreas(o)
  {
    used := [];
    for k := 0 to |o.partitions|
      invariant used == PartAreas(o.partitions)[..k]
    {
      var i := o.partitions[k];
      used := used + [(i.sectstart, i.sectstart + i.numsects)];
      assert PartAreas(o.partitions)[..k + 1] == PartAreas(o.partitions)[..k] + [PartAreas(o.partitions)[k]];
    }
    assert used == PartAreas(o.partitions);
    if o.table.reservedEnd != 0 {
      used := used + [(o.numsects - o.table.reservedEnd, o.numsects)];
    }
    assert used == Areas(o);
    used := SortAreas(used);
  }

  /** The messages of `checkAreaFree`. */
  const BEFORE_BEGINNING := "starts before beginning"
  const IN_RESERVED := "starts in reserved area at the partition beginning"
  const TOO_SMALL := "minimum size is 2 sectors"
  const PAST_END := "goes past end"
  const NEEDS_SKIP := "This partition requires a reserved area before the beginning"
  const IN_USE := "is inside another used area"

  /** What the used areas from k on say of the area from sectstart to end
      (its last sector): the first that overlaps it, or leaves too little
      room before it, decides. */
  function OverlapFrom(used: seq<Area>, k: nat, sectstart: int, end: int, skip: int): Option<string>
    requires k <= |used|
    decreases |used| - k
  {
    if k == |used| then None
    else
      var u := used[k];
      if end < u.0 then OverlapFrom(used, k + 1, sectstart, end, skip)
      else if sectstart >= u.1 then
        (if sectstart < u.1 + skip then Some(NEEDS_SKIP) else OverlapFrom(used, k + 1, sectstart, end, skip))
      else Some(IN_USE)
  }

  /** `checkAreaFree(sectstart, numsects)`: None when the area is free, or
      the first complaint.  Written with the end test the source means: the
      last sector, end, must come before `partitionOffset + numsects`, the
      first sector past the owner.  The source's `end > partitionOffset +
      numsects` is `AreaCheckAsWritten`. */
  function AreaCheck(o: Owner, sectstart: int, numsects: int): Option<string>
  {
    if sectstart < o.partitionOffset then Some(BEFORE_BEGINNING)
    else if sectstart < o.partitionOffset + o.table.reservedBeginning + o.table.reservedSkip then Some(IN_RESERVED)
    else if numsects < 2 then Some(TOO_SMALL)
    else if sectstart + numsects - 1 >= o.partitionOffset + o.numsects then Some(PAST_END)
    else OverlapFrom(UsedAreas(o), 0, sectstart, sectstart + numsects - 1, o.table.reservedSkip)
  }

  /** `checkAreaFree` as written: its end test lets the last sector be the
      first sector past the owner. */
  function AreaCheckAsWritten(o: Owner, sectstart: int, numsects: int): Option<string>
  {
    if sectstart < o.partitionOffset then Some(BEFORE_BEGINNING)
    else if sectstart < o.partitionOffset + o.table.reservedBeginning + o.table.reservedSkip then Some(IN_RESERVED)
    else if numsects < 2 then Some(TOO_SMALL)
    else if sectstart + numsects - 1 > o.partitionOffset + o.numsects then Some(PAST_END)
    else OverlapFrom(UsedAreas(o), 0, sectstart, sectstart + numsects - 1, o.table.reservedSkip)
  }

  /** An empty extended partition of 50 sectors at sector 100 (one reserved
      sector at its beginning, one before every logical partition, none at
      its end): as written, the 49 sectors from 102 pass the check although
      the last of them, 150, is past the owner's last sector, 149.  The
      intended check refuses them and accepts the 48 sectors from 102. */
  lemma AcceptsSectorPastEnd()
    ensures var o := Owner([], 50, 100, Label(1, 0, 1, 60), 1, 1);
      AreaCheckAsWritten(o, 102, 49) == None && 102 + 49 - 1 == o.partitionOffset + o.numsects &&
      AreaCheck(o, 102, 49) == Some(PAST_END) && AreaCheck(o, 102, 48) == None
  {
    var o := Owner([], 50, 100, Label(1, 0, 1, 60), 1, 1);
    assert Areas(o) == [];
    assert UsedAreas(o) == [];
  }

  /** The area is free: it starts at or after the owner's start and its
      reserved beginning and skip, has at least two sectors, ends before
      the owner's end, and every used area either starts after it or ends,
      with the skip, by its start. */
  predicate Free(o: Owner, used: seq<Area>, sectstart: int, numsects: int)
  {
    var end := sectstart + numsects - 1;
    var skip := o.table.reservedSkip;
    sectstart >= o.partitionOffset &&
    sectstart >= o.partitionOffset + o.table.reservedBeginning + skip &&
    numsects >= 2 && end < o.partitionOffset + o.numsects &&
    forall j :: 0 <= j < |used| ==> end < used[j].0 || sectstart >= used[j].1 + skip
  }

  lemma {:induction false} OverlapFromNone(used: seq<Area>, k: nat, sectstart: int, end: int, skip: int)
    requires k <= |used| && skip >= 0
    ensures OverlapFrom(used, k, sectstart, end, skip) == None <==>
      forall j :: k <= j < |used| ==> end < used[j].0 || sectstart >= used[j].1 + skip
    decreases |used| - k
  {
    if k < |used| {
      OverlapFromNone(used, k + 1, sectstart, end, skip);
    }
  }

  /** `checkAreaFree` accepts exactly the free areas (labels reserve no
      negative number of sectors). */
  lemma AreaCheckFree(o: Owner, sectstart: int, numsects: int)
    requires o.table.reservedSkip >= 0
    ensures AreaCheck(o, sectstart, numsects) == None <==> Free(o, UsedAreas(o), sectstart, numsects)
  {
    OverlapFromNone(UsedAreas(o), 0, sectstart, sectstart + numsects - 1, o.table.reservedSkip);
  }

  /** `checkAreaFree(sectstart, numsects)`: the bound checks, then the
      loop over the used areas. */
  method CheckAreaFree(o: Owner, sectstart: int, numsects: int) returns (r: Option<string>)
    ensures r == AreaCheck(o, sectstart, numsects)
  {
    if sectstart < o.partitionOffset {
      return Some(BEFORE_BEGINNING);
    }
    if sectstart < o.partitionOffset + o.table.reservedBeginning + o.table.reservedSkip {
      return Some(IN_RESERVED);
    }
    if numsects < 2 {
      return Some(TOO_SMALL);
    }
    var end := sectstart + numsects - 1;
    if end >= o.partitionOffset + o.numsects {
      return Some(PAST_END);
    }
    var used := GetUsedAreas(o);
    var skip := o.table.reservedSkip;
    for k := 0 to |used|
      invariant OverlapFrom(used, k, sectstart, end, skip) == OverlapFrom(used, 0, sectstart, end, skip)
    {
      var u := used[k];
      if end < u.0 {
        continue;
      }
      if sectstart >= u.1 {
        if sectstart < u.1 + skip {
          return Some(NEEDS_SKIP);
        }
        continue;
      }
      return Some(IN_USE);
    }
    return None;
  }

  /** What `addCmd` raises. */
  datatype AddErr = TooManyPartitions(max: int) | NoMoreSpace

  /** The hole search of `addCmd` from used area k on, the candidate start
      being csect: the first area that starts more than an alignment unit
      after the aligned candidate ends the hole; past the last area the
      rest of the owner is the hole, unless the candidate is at or past its
      end.  The result is the start and size before the size is aligned. */
  function Search(o: Owner, alignOpt: bool, used: seq<Area>, k: nat, csect: int): Result<(int, int), AddErr>
    requires Aligned(o) && k <= |used|
    decreases |used| - k
  {
    var c := AlignValue(o, alignOpt, csect, true);
    if k == |used| then
      if c - o.partitionOffset >= o.numsects then Err(NoMoreSpace)
      else Ok((c, o.numsects - (c - o.partitionOffset)))
    else if used[k].0 > AlignValue(o, alignOpt, c + 1, true) then Ok((c, used[k].0 - c))
    else Search(o, alignOpt, used, k + 1, used[k].1 + o.table.reservedSkip)
  }

  /** The first sector a partition can start at. */
  function FirstStart(o: Owner): int
  {
    o.partitionOffset + o.table.reservedBeginning + o.table.reservedSkip
  }

  /** The start and size `addCmd` proposes for a new partition. */
  function Proposal(o: Owner, alignOpt: bool): Result<(int, int), AddErr>
    requires Aligned(o)
  {
    if |o.partitions| >= o.table.maxPartitions then Err(TooManyPartitions(o.table.maxPartitions))
    else match Search(o, alignOpt, UsedAreas(o), 0, FirstStart(o))
      case Err(e) => Err(e)
      case Ok(hole) => Ok((hole.0, AlignValue(o, alignOpt, hole.1, false)))
  }

  /** `addCmd(p, extended)` up to the editing of the proposal: the
      partition count check, then the hole search over the used areas. */
  method AddCmd(o: Owner, alignOpt: bool) returns (r: Result<(int, int), AddErr>)
    requires Aligned(o)
    ensures r == Proposal(o, alignOpt)
  {
    if |o.partitions| >= o.table.maxPartitions {
      return Err(TooManyPartitions(o.table.maxPartitions));
    }
    var used := GetUsedAreas(o);
    var csect := FirstStart(o);
    var found := false;
    var sectstart, numsects := 0, 0;
    var k := 0;
    while k < |used|
      invariant k <= |used| && !found
      invariant Search(o, alignOpt, used, k, csect) == Search(o, alignOpt, used, 0, FirstStart(o))
    {
      csect := AlignValue(o, alignOpt, csect, true);
      if used[k].0 > AlignValue(o, alignOpt, csect + 1, true) {
        found := true;
        sectstart := csect;
        numsects := used[k].0 - csect;
        break;
      }
      csect := used[k].1 + o.table.reservedSkip;
      k := k + 1;
    }
    if !found {
      csect := AlignValue(o, alignOpt, csect, true);
      if csect - o.partitionOffset >= o.numsects {
        return Err(NoMoreSpace);
      }
      sectstart := csect;
      numsects := o.numsects - (csect - o.partitionOffset);
    }
    numsects := AlignValue(o, alignOpt, numsects, false);
    return Ok((sectstart, numsects));
  }

  /** The used areas lie one after the other without overlapping, at or
      after the owner's reserved beginning and within the owner. */
  predicate Laid(o: Owner, used: seq<Area>)
  {
    (forall j :: 0 <= j < |used| ==>
       o.partitionOffset + o.table.reservedBeginning <= used[j].0 <= used[j].1 <= o.partitionOffset + o.numsects) &&
    forall i, j :: 0 <= i < j < |used| ==> used[i].1 <= used[j].0
  }

  /** A proposal's start and size are multiples of the alignment, and
      its size is not negative. */
  lemma ProposalAligned(o: Owner, alignOpt: bool)
    requires Aligned(o) && Proposal(o, alignOpt).Ok?
    ensures var a := Alignment(o, alignOpt);
      var p := Proposal(o, alignOpt).value;
      p.0 % a == 0 && p.1 % a == 0 && p.1 >= 0
  {
    SearchAligned(o, alignOpt, UsedAreas(o), 0, FirstStart(o));
    var hole := Search(o, alignOpt, UsedAreas(o), 0, FirstStart(o)).value;
    AlignVIs(hole.1, Alignment(o, alignOpt), false);
    assert 0 % Alignment(o, alignOpt) == 0;
  }

  lemma {:induction false} SearchAligned(o: Owner, alignOpt: bool, used: seq<Area>, k: nat, csect: int)
    requires Aligned(o) && k <= |used| && Search(o, alignOpt, used, k, csect).Ok?
    ensures var hole := Search(o, alignOpt, used, k, csect).value;
      hole.0 % Alignment(o, alignOpt) == 0 && hole.1 > 0
    decreases |used| - k
  {
    var c := AlignValue(o, alignOpt, csect, true);
    AlignVIs(csect, Alignment(o, alignOpt), true);
    if k < |used| {
      AlignVIs(c + 1, Alignment(o, alignOpt), true);
      if !(used[k].0 > AlignValue(o, alignOpt, c + 1, true)) {
        SearchAligned(o, alignOpt, used, k + 1, used[k].1 + o.table.reservedSkip);
      }
    }
  }

  /** The area `addCmd` proposes passes `checkAreaFree`, when the used
      areas are laid out properly and the proposal has at least the two
      sectors a partition needs. */
  lemma ProposalIsFree(o: Owner, alignOpt: bool)
    requires Aligned(o) && o.table.reservedBeginning >= 0 && o.table.reservedSkip >= 0
    requires Laid(o, UsedAreas(o))
    requires Proposal(o, alignOpt).Ok? && Proposal(o, alignOpt).value.1 >= 2
    ensures AreaCheck(o, Proposal(o, alignOpt).value.0, Proposal(o, alignOpt).value.1) == None
  {
    var used := UsedAreas(o);
    SearchFree(o, alignOpt, used, 0, FirstStart(o));
    AreaCheckFree(o, Proposal(o, alignOpt).value.0, Proposal(o, alignOpt).value.1);
  }

  lemma {:induction false} SearchFree(o: Owner, alignOpt: bool, used: seq<Area>, k: nat, csect: int)
    requires Aligned(o) && o.table.reservedBeginning >= 0 && o.table.reservedSkip >= 0
    requires Laid(o, used) && k <= |used|
    requires csect >= FirstStart(o)
    requires forall j :: 0 <= j < k ==> csect >= used[j].1 + o.table.reservedSkip
    ensures var s := Search(o, alignOpt, used, k, csect);
      s.Ok? ==> var n := AlignValue(o, alignOpt, s.value.1, false);
        n >= 2 ==> Free(o, used, s.value.0, n)
    decreases |used| - k
  {
    var c := AlignValue(o, alignOpt, csect, true);
    var skip := o.table.reservedSkip;
    if k < |used| && !(used[k].0 > AlignValue(o, alignOpt, c + 1, true)) {
      var next := used[k].1 + skip;
      forall j | 0 <= j < k + 1
        ensures next >= used[j].1 + skip
      {
        if j < k {
          assert used[j].1 <= used[k].0;
        }
      }
      SearchFree(o, alignOpt, used, k + 1, next);
    } else {
      StopFree(o, alignOpt, used, k, csect);
    }
  }

  /** Where the search stops, the hole it gives, aligned down, is free. */
  lemma StopFree(o: Owner, alignOpt: bool, used: seq<Area>, k: nat, csect: int)
    requires Aligned(o) && o.table.reservedBeginning >= 0 && o.table.reservedSkip >= 0
    requires Laid(o, used) && k <= |used|
    requires csect >= FirstStart(o)
    requires forall j :: 0 <= j < k ==> csect >= used[j].1 + o.table.reservedSkip
    requires k < |used| ==> used[k].0 > AlignValue(o, alignOpt, AlignValue(o, alignOpt, csect, true) + 1, true)
    ensures var s := Search(o, alignOpt, used, k, csect);
      s.Ok? ==> var n := AlignValue(o, alignOpt, s.value.1, false);
        n >= 2 ==> Free(o, used, s.value.0, n)
  {
    var a := Alignment(o, alignOpt);
    var skip := o.table.reservedSkip;
    var c := AlignValue(o, alignOpt, csect, true);
    AlignVIs(csect, a, true);
    var s := Search(o, alignOpt, used, k, csect);
    if s.Ok? {
      assert s.value.0 == c;
      var n := AlignValue(o, alignOpt, s.value.1, false);
      AlignVIs(s.value.1, a, false);
      if n >= 2 {
        var end := c + n - 1;
        assert end < c + s.value.1;
        if k < |used| {
          assert s.value.1 == used[k].0 - c;
          assert end < used[k].0;
        } else {
          assert s.value.1 == o.numsects - (c - o.partitionOffset);
        }
        forall j | 0 <= j < |used|
          ensures end < used[j].0 || c >= used[j].1 + skip
        {
          if j > k {
            assert used[k].1 <= used[j].0;
          }
        }
      }
    }
  }
}
