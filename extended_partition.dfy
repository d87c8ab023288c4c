/** Deleting a logical partition of an extended partition.  Logical
    partitions are numbered contiguously from 5; when one goes, every
    partition numbered above it moves down by one, so the numbering stays
    contiguous. */
module ExtendedPartition {

  /** A logical partition; only its number matters here. */
  class Partition {
    var num: int

    constructor(num: int)
      ensures this.num == num
    {
      this.num := num;
    }
  }

  /** The number partitions get after partition n is deleted: numbers
      below n are kept, the others go down by one. */
  function Renumber(nums: seq<int>, n: int): (r: seq<int>)
  {
    seq(|nums|, k requires 0 <= k < |nums| => if nums[k] < n then nums[k] else nums[k] - 1)
  }

  /** The list without its entry at i. */
  function RemoveAt<T>(s: seq<T>, i: nat): (r: seq<T>)
    requires i < |s|
  {
    s[..i] + s[i + 1..]
  }

  /** No two entries are the same. */
  predicate Distinct<T(==)>(s: seq<T>)
  {
    forall i, j :: 0 <= i < j < |s| ==> s[i] != s[j]
  }

  /** The numbers are lo, lo + 1, ..., lo + |nums| - 1 in some order: no
      number twice, and each in that range. */
  predicate Contiguous(nums: seq<int>, lo: int)
  {
    Distinct(nums) && forall k :: 0 <= k < |nums| ==> lo <= nums[k] < lo + |nums|
  }

  /** Deleting any partition of a contiguous numbering and renumbering the
      rest leaves a contiguous numbering from the same first number. */
  lemma RenumberContiguous(nums: seq<int>, i: nat, lo: int)
    requires Contiguous(nums, lo) && i < |nums|
    ensures Contiguous(Renumber(RemoveAt(nums, i), nums[i]), lo)
  {
    var n := nums[i];
    var rest := RemoveAt(nums, i);
    var r := Renumber(rest, n);
    forall k | 0 <= k < |rest|
      ensures rest[k] != n && lo <= rest[k] < lo + |nums|
    {
      if k < i {
        assert rest[k] == nums[k];
      } else {
        assert rest[k] == nums[k + 1];
      }
    }
    forall a, b | 0 <= a < b < |rest|
      ensures rest[a] != rest[b]
    {
      var a', b' := if a < i then a else a + 1, if b < i then b else b + 1;
      assert rest[a] == nums[a'] && rest[b] == nums[b'];
    }
  }

  /** The partitions' numbers, in list order. */
  function Nums(ps: seq<Partition>): (r: seq<int>)
    reads ps
    ensures |r| == |ps| && forall k :: 0 <= k < |ps| ==> r[k] == ps[k].num
  {
    seq(|ps|, k requires 0 <= k < |ps| reads ps => ps[k].num)
  }

  /** An extended partition and its logical partitions, in order. */
  class Extended {
    var partitions: seq<Partition>

    constructor()
      ensures partitions == []
    {
      partitions := [];
    }

    /** `delCmd(p, part)`: the partition is taken out of the list
        (`PartitionOwner.delCmd`) and every remaining one numbered at least
        as high is renamed to the number below. */
    method DelCmd(part: Partition)
      requires part in partitions && Distinct(partitions)
      modifies this, partitions
      ensures var i := IndexOf(old(partitions), part);
        partitions == RemoveAt(old(partitions), i) &&
        Nums(partitions) == Renumber(RemoveAt(old(Nums(partitions)), i), old(part.num))
      ensures part.num == old(part.num)
    {
      var num := part.num;
      ghost var nums0 := Nums(partitions);
      var i := Remove(part);
      assert Nums(partitions) == RemoveAt(nums0, i);
      Rename(partitions, num);
    }

    /** `PartitionOwner.delCmd(p, part)` as far as the list goes: find the
        partition's index and delete it there. */
    method Remove(part: Partition) returns (i: nat)
      requires part in partitions && Distinct(partitions)
      modifies this
      ensures i == IndexOf(old(partitions), part)
      ensures partitions == RemoveAt(old(partitions), i) && part !in partitions
      ensures Distinct(partitions)
    {
      i := 0;
      while partitions[i] != part
        invariant i < |partitions| && part !in partitions[..i] && IndexOf(partitions, part) >= i
        decreases |partitions| - i
      {
        i := i + 1;
      }
      ghost var ps := partitions;
      partitions := partitions[..i] + partitions[i + 1..];
      forall k | 0 <= k < |partitions|
        ensures partitions[k] != part
      {
        if k < i {
          assert partitions[k] == ps[k];
        } else {
          assert partitions[k] == ps[k + 1];
        }
      }
      forall a, b | 0 <= a < b < |partitions|
        ensures partitions[a] != partitions[b]
      {
        var a', b' := if a < i then a else a + 1, if b < i then b else b + 1;
        assert partitions[a] == ps[a'] && partitions[b] == ps[b'];
      }
    }
  }

  /** The loop of `delCmd`: every partition of ps numbered at least num
      gets the number below. */
  method Rename(ps: seq<Partition>, num: int)
    requires Distinct(ps)
    modifies ps
    ensures Nums(ps) == Renumber(old(Nums(ps)), num)
  {
    ghost var before := Nums(ps);
    for k := 0 to |ps|
      invariant forall j :: 0 <= j < k ==> ps[j].num == if old(ps[j].num) < num then old(ps[j].num) else old(ps[j].num) - 1
      invariant forall j :: k <= j < |ps| ==> ps[j].num == old(ps[j].num)
    {
      var x := ps[k];
      if x.num < num {
        continue;
      }
      x.num := x.num - 1;
    }
    ghost var after := Nums(ps);
    ghost var want := Renumber(before, num);
    assert |after| == |want|;
    forall j | 0 <= j < |ps|
      ensures after[j] == want[j]
    {
      assert before[j] == old(ps[j].num);
    }
    assert after == want;
  }

  /** The index of x in s. */
  function IndexOf<T(==)>(s: seq<T>, x: T): (i: nat)
    requires x in s
    ensures i < |s| && s[i] == x && x !in s[..i]
  {
    if s[0] == x then 0
    else
      var j := IndexOf(s[1..], x);
      assert s[1..][..j] == s[1..j + 1];
      1 + j
  }
}
