/** Python's `list.sort()`, for the two kinds of lists the partitioning
    rules sort: sector numbers and `(start, end)` areas, which Python
    compares lexicographically.  Both are total orders, so the sorted list
    is unique and any sorting method gives it; it is written here as an
    insertion sort. */
module Sorting {

  /** An area on the disk: its first sector and one past its last. */
  type Area = (int, int)

  /** Python's `<=` on a pair of ints. */
  predicate AreaLe(a: Area, b: Area)
  {
    a.0 < b.0 || (a.0 == b.0 && a.1 <= b.1)
  }

  /** Every area is `<=` the next one. */
  predicate AreasSorted(s: seq<Area>)
  {
    forall i :: 0 <= i < |s| - 1 ==> AreaLe(s[i], s[i + 1])
  }

  /** x put before the first area it is `<=`. */
  function InsertArea(x: Area, s: seq<Area>): (r: seq<Area>)
  {
    if s == [] || AreaLe(x, s[0]) then [x] + s else [s[0]] + InsertArea(x, s[1..])
  }

  /** `sorted(s)` on areas. */
  function SortAreas(s: seq<Area>): (r: seq<Area>)
  {
    if s == [] then [] else InsertArea(s[0], SortAreas(s[1..]))
  }

  lemma {:induction false} InsertAreaSorted(x: Area, s: seq<Area>)
    requires AreasSorted(s)
    ensures AreasSorted(InsertArea(x, s))
    ensures InsertArea(x, s) != [] && (InsertArea(x, s)[0] == x || (s != [] && InsertArea(x, s)[0] == s[0]))
  {
    if s != [] && !AreaLe(x, s[0]) {
      assert AreasSorted(s[1..]) by {
        forall i | 0 <= i < |s[1..]| - 1
          ensures AreaLe(s[1..][i], s[1..][i + 1])
        {
          assert s[1..][i] == s[i + 1] && s[1..][i + 1] == s[i + 2];
        }
      }
      InsertAreaSorted(x, s[1..]);
      var t := InsertArea(x, s[1..]);
      assert s == [s[0]] + s[1..];
      forall i | 0 <= i < |[s[0]] + t| - 1
        ensures AreaLe(([s[0]] + t)[i], ([s[0]] + t)[i + 1])
      {
        if i > 0 {
          assert ([s[0]] + t)[i] == t[i - 1] && ([s[0]] + t)[i + 1] == t[i];
        }
      }
    }
  }

  /** Inserting adds x and removes nothing. */
  lemma {:induction false} InsertAreaCount(x: Area, s: seq<Area>)
    ensures multiset(InsertArea(x, s)) == multiset(s) + multiset{x}
  {
    if s != [] && !AreaLe(x, s[0]) {
      InsertAreaCount(x, s[1..]);
      assert s == [s[0]] + s[1..];
    }
  }

  /** The areas sorted: in order, and the same areas as before. */
  lemma {:induction false} SortAreasSorted(s: seq<Area>)
    ensures AreasSorted(SortAreas(s)) && multiset(SortAreas(s)) == multiset(s)
  {
    if s != [] {
      SortAreasSorted(s[1..]);
      InsertAreaSorted(s[0], SortAreas(s[1..]));
      InsertAreaCount(s[0], SortAreas(s[1..]));
      assert s == [s[0]] + s[1..];
    }
  }

  /** Every number is `<=` the next one. */
  predicate IntsSorted(s: seq<int>)
  {
    forall i :: 0 <= i < |s| - 1 ==> s[i] <= s[i + 1]
  }

  function InsertInt(x: int, s: seq<int>): (r: seq<int>)
  {
    if s == [] || x <= s[0] then [x] + s else [s[0]] + InsertInt(x, s[1..])
  }

  /** `sorted(s)` on numbers. */
  function SortInts(s: seq<int>): (r: seq<int>)
  {
    if s == [] then [] else InsertInt(s[0], SortInts(s[1..]))
  }

  lemma {:induction false} InsertIntSorted(x: int, s: seq<int>)
    requires IntsSorted(s)
    ensures IntsSorted(InsertInt(x, s))
    ensures InsertInt(x, s) != [] && (InsertInt(x, s)[0] == x || (s != [] && InsertInt(x, s)[0] == s[0]))
  {
    if s != [] && x > s[0] {
      var tail := s[1..];
      assert IntsSorted(tail) by {
        forall i | 0 <= i < |tail| - 1
          ensures tail[i] <= tail[i + 1]
        {
          assert tail[i] == s[i + 1] && tail[i + 1] == s[i + 2];
        }
      }
      InsertIntSorted(x, tail);
      var t := InsertInt(x, tail);
      var r := [s[0]] + t;
      assert InsertInt(x, s) == r;
      assert s == [s[0]] + tail;
      assert t[0] == x || t[0] == s[1];
      assert r[0] <= r[1];
      forall i | 1 <= i < |r| - 1
        ensures r[i] <= r[i + 1]
      {
        assert r[i] == t[i - 1] && r[i + 1] == t[i];
      }
    }
  }

  /** Inserting adds x and removes nothing. */
  lemma {:induction false} InsertIntCount(x: int, s: seq<int>)
    ensures multiset(InsertInt(x, s)) == multiset(s) + multiset{x}
  {
    if s != [] && x > s[0] {
      InsertIntCount(x, s[1..]);
      assert s == [s[0]] + s[1..];
    }
  }

  /** The numbers sorted: in order, and the same numbers as before. */
  lemma {:induction false} SortIntsSorted(s: seq<int>)
    ensures IntsSorted(SortInts(s)) && multiset(SortInts(s)) == multiset(s)
  {
    if s != [] {
      SortIntsSorted(s[1..]);
      InsertIntSorted(s[0], SortInts(s[1..]));
      InsertIntCount(s[0], SortInts(s[1..]));
      assert s == [s[0]] + s[1..];
    }
  }

  /** In a sorted list of numbers every number is `<=` every later one. */
  lemma {:induction false} IntsSortedAll(s: seq<int>, i: nat, j: nat)
    requires IntsSorted(s) && i <= j < |s|
    ensures s[i] <= s[j]
    decreases j - i
  {
    if i < j {
      IntsSortedAll(s, i + 1, j);
    }
  }
}
