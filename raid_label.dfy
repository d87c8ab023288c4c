/** The "A" command of the RAIDs label: the new array is given the least
    MD number (`/dev/mdN`) that the RAIDs listed under the label do not
    use. */
module RaidLabel {
  import opened Sorting

  /** What a line of the partitioner holds, as far as the search cares:
      a RAID, with the number of its `/dev/mdN` name, or anything else. */
  datatype LineObj = Raid(md: nat) | Other

  /** The numbers of the RAIDs on the lines from k on, up to the first
      line that is not a RAID. */
  function RaidsFrom(lines: seq<LineObj>, k: nat): (r: seq<int>)
    requires k <= |lines|
    decreases |lines| - k
  {
    if k == |lines| || lines[k].Other? then [] else [lines[k].md] + RaidsFrom(lines, k + 1)
  }

  /** No number comes twice. */
  predicate Distinct(s: seq<int>)
  {
    forall i, j :: 0 <= i < j < |s| ==> s[i] != s[j]
  }

  /** The numbers the RAIDs below the label on line rline use. */
  function InUse(lines: seq<LineObj>, rline: nat): (u: set<int>)
    requires rline < |lines|
  {
    var r := RaidsFrom(lines, rline + 1);
    set i | 0 <= i < |r| :: r[i]
  }

  /** `Command(p, "A")` up to the name of the new RAID: the RAIDs directly
      below the label on line rline are collected, sorted, and counted up
      from 0 while they match.  Every number below the result is in use,
      and, when no two RAIDs share a number, the result is not. */
  method NewRaidNumber(lines: seq<LineObj>, rline: nat) returns (n: nat)
    requires rline < |lines|
    ensures forall j :: 0 <= j < n ==> j in InUse(lines, rline)
    ensures Distinct(RaidsFrom(lines, rline + 1)) ==> n !in InUse(lines, rline)
  {
    var craids := CollectRaids(lines, rline);
    var sorted := SortInts(craids);
    SortIntsSorted(craids);
    n := CountUp(sorted);
    UsedNumbers(lines, rline, craids, sorted, n);
  }

  /** The counting loop: how far the sorted numbers go 0, 1, 2, ... */
  method CountUp(sorted: seq<int>) returns (n: nat)
    ensures n <= |sorted| && (forall j :: 0 <= j < n ==> sorted[j] == j)
    ensures n < |sorted| ==> sorted[n] != n
  {
    n := 0;
    while n < |sorted|
      invariant n <= |sorted|
      invariant forall j :: 0 <= j < n ==> sorted[j] == j
    {
      if sorted[n] != n {
        break;
      }
      n := n + 1;
    }
  }

  /** What the count says about the numbers in use. */
  lemma UsedNumbers(lines: seq<LineObj>, rline: nat, craids: seq<int>, sorted: seq<int>, n: nat)
    requires rline < |lines| && craids == RaidsFrom(lines, rline + 1)
    requires IntsSorted(sorted) && multiset(sorted) == multiset(craids)
    requires n <= |sorted| && (forall j :: 0 <= j < n ==> sorted[j] == j)
    requires n < |sorted| ==> sorted[n] != n
    ensures forall j :: 0 <= j < n ==> j in InUse(lines, rline)
    ensures Distinct(craids) ==> n !in InUse(lines, rline)
  {
    RaidsNatural(lines, rline + 1);
    forall j | 0 <= j < n
      ensures j in InUse(lines, rline)
    {
      assert sorted[j] == j;
      assert sorted[j] in multiset(craids);
      var i :| 0 <= i < |craids| && craids[i] == j;
    }
    if Distinct(craids) {
      MissingFromSorted(craids, sorted, n);
      forall i | 0 <= i < |craids|
        ensures craids[i] != n
      {
        assert craids[i] in craids;
      }
    }
  }

  /** At the first place k where a sorted list of distinct naturals stops
      counting 0, 1, 2, ..., the number k is missing from it. */
  lemma MissingFromSorted(craids: seq<int>, sorted: seq<int>, k: nat)
    requires Distinct(craids) && multiset(sorted) == multiset(craids) && IntsSorted(sorted)
    requires forall x :: x in craids ==> x >= 0
    requires k <= |sorted| && (forall j :: 0 <= j < k ==> sorted[j] == j)
    requires k < |sorted| ==> sorted[k] != k
    ensures k !in craids
  {
    DistinctSorted(craids, sorted);
    assert k < |sorted| ==> sorted[k] > k by {
      if k < |sorted| {
        assert sorted[k] in multiset(sorted);
        assert sorted[k] in craids;
        if k > 0 {
          IntsSortedAll(sorted, k - 1, k);
          assert sorted[k - 1] == k - 1;
        }
      }
    }
    forall m | 0 <= m < |sorted|
      ensures sorted[m] != k
    {
      if m < k {
        assert sorted[m] == m;
      } else if m > k {
        IntsSortedAll(sorted, k, m);
      }
    }
    assert k !in multiset(sorted);
  }

  /** A permutation of a list without repeats has none either. */
  lemma DistinctSorted(craids: seq<int>, sorted: seq<int>)
    requires Distinct(craids) && multiset(sorted) == multiset(craids)
    ensures Distinct(sorted)
  {
    forall i, j | 0 <= i < j < |sorted|
      ensures sorted[i] != sorted[j]
    {
      if sorted[i] == sorted[j] {
        var x := sorted[i];
        assert multiset(sorted)[x] >= 2 by {
          assert sorted == sorted[..i] + [x] + sorted[i + 1..j] + [x] + sorted[j + 1..];
        }
        DistinctOnce(craids, x);
      }
    }
  }

  lemma {:induction false} DistinctOnce(s: seq<int>, x: int)
    requires Distinct(s)
    ensures multiset(s)[x] <= 1
  {
    if s != [] {
      assert Distinct(s[1..]) by {
        forall i, j | 0 <= i < j < |s[1..]|
          ensures s[1..][i] != s[1..][j]
        {
          assert s[1..][i] == s[i + 1] && s[1..][j] == s[j + 1];
        }
      }
      DistinctOnce(s[1..], x);
      assert s == [s[0]] + s[1..];
      if s[0] == x {
        assert x !in s[1..];
      }
    }
  }

  /** MD numbers are never negative. */
  lemma {:induction false} RaidsNatural(lines: seq<LineObj>, k: nat)
    requires k <= |lines|
    ensures forall x :: x in RaidsFrom(lines, k) ==> x >= 0
    decreases |lines| - k
  {
    if k < |lines| && lines[k].Raid? {
      RaidsNatural(lines, k + 1);
    }
  }

  /** The collecting loop: lines below the label while they hold RAIDs. */
  method CollectRaids(lines: seq<LineObj>, rline: nat) returns (craids: seq<int>)
    requires rline < |lines|
    ensures craids == RaidsFrom(lines, rline + 1)
  {
    craids := [];
    var l := rline + 1;
    while l < |lines|
      invariant rline + 1 <= l <= |lines|
      invariant craids + RaidsFrom(lines, l) == RaidsFrom(lines, rline + 1)
      decreases |lines| - l
    {
      if lines[l].Other? {
        break;
      }
      craids := craids + [lines[l].md];
      l := l + 1;
    }
  }
}
