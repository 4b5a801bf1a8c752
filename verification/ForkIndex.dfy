/**
 The index as the writer maintains it. `nums` are the block numbers in the order written: writing
 block `n` truncates the index to the blocks below `n` and adds the new entry, so an append and a
 fork are the same step.
 */
module ForkIndex {

  /** Every block written is at or above the first and at most one past the previous one. */
  predicate Legal(nums: seq<nat>) {
    |nums| > 0 && forall k :: 0 < k < |nums| ==> nums[0] <= nums[k] <= nums[k - 1] + 1
  }

  /** How many of `len` slots lie below block `n`. */
  function Kept(first: nat, n: nat, len: nat): (k: nat)
    ensures k <= len
  {
    if n < first then 0 else if n - first < len then n - first else len
  }

  /** The slots after writing `nums`, where the `i`-th write stores `offs[i]`. */
  function Slots(nums: seq<nat>, offs: seq<nat>): seq<nat>
    requires |nums| == |offs|
  {
    if nums == [] then [] else
    var n := |nums| - 1;
    var slots := Slots(nums[..n], offs[..n]);
    slots[..Kept(nums[0], nums[n], |slots|)] + [offs[n]]
  }

  /** The writes the index points at, block by block. */
  function Owners(nums: seq<nat>): seq<nat> {
    if nums == [] then [] else
    var n := |nums| - 1;
    var owners := Owners(nums[..n]);
    owners[..Kept(nums[0], nums[n], |owners|)] + [n]
  }

  /** The `i`-th write is on the chain: nothing written later is at or below its block. */
  ghost predicate Survives(nums: seq<nat>, i: nat) {
    i < |nums| && forall j :: i < j < |nums| ==> nums[j] > nums[i]
  }

  lemma {:induction false} SlotsFollowOwners(nums: seq<nat>, offs: seq<nat>)
    requires |nums| == |offs|
    ensures |Slots(nums, offs)| == |Owners(nums)|
    ensures forall k :: 0 <= k < |Owners(nums)| ==>
      0 <= Owners(nums)[k] < |nums| && Slots(nums, offs)[k] == offs[Owners(nums)[k]]
  {
    if nums != [] {
      SlotsFollowOwners(nums[..|nums| - 1], offs[..|nums| - 1]);
    }
  }

  /** One owner per block from the first to the last written, in file order. */
  lemma {:induction false} OwnersByBlock(nums: seq<nat>)
    requires Legal(nums)
    ensures nums[0] <= nums[|nums| - 1] && |Owners(nums)| == nums[|nums| - 1] + 1 - nums[0]
    ensures forall k :: 0 <= k < |Owners(nums)| ==>
      0 <= Owners(nums)[k] < |nums| && nums[Owners(nums)[k]] == nums[0] + k
    ensures forall k, l :: 0 <= k < l < |Owners(nums)| ==> Owners(nums)[k] < Owners(nums)[l]
  {
    if |nums| > 1 {
      OwnersByBlock(nums[..|nums| - 1]);
    } else {
      assert Owners(nums[..0]) == [];
    }
  }

  /** Every owner is a surviving write. */
  lemma {:induction false} OwnersSurvive(nums: seq<nat>, k: nat)
    requires Legal(nums) && k < |Owners(nums)|
    ensures Survives(nums, Owners(nums)[k])
  {
    OwnersByBlock(nums);
    var n := |nums| - 1;
    var before := nums[..n];
    if k < |Owners(nums)| - 1 {
      OwnersByBlock(before);
      OwnersSurvive(before, k);
      var i := Owners(before)[k];
      assert forall j :: i < j < n ==> nums[j] == before[j];
    }
  }

  function Owner(nums: seq<nat>, n: nat): (i: nat)
    requires Legal(nums) && nums[0] <= n <= nums[|nums| - 1]
    ensures Survives(nums, i) && nums[i] == n
    ensures forall j: nat :: Survives(nums, j) && nums[j] == n ==> j == i
  {
    OwnersByBlock(nums);
    OwnersSurvive(nums, n - nums[0]);
    Owners(nums)[n - nums[0]]
  }
}
