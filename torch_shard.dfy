/** The rank sharding of `make_torch_dataset`: under an initialised
    process group with `distributed` set, rank `r` of `n` over `L`
    records reads the slice starting at `L*r // n` of length `L // n`;
    otherwise it reads the whole dataset. */
module TorchShard {
  import opened Common

  /** What one rank reads: the whole dataset, or the window a
      `SliceDatasetWrapper` would be built with. */
  datatype Shard = Whole | Part(start: int, length: int)

  /** The first record of rank `r`'s shard. */
  function ShardStart(total: nat, rank: nat, worldSize: nat): nat
    requires worldSize > 0
  {
    total * rank / worldSize
  }

  /** The shard every rank gets, dropping the remainder. */
  function ShardLength(total: nat, worldSize: nat): nat
    requires worldSize > 0
  {
    total / worldSize
  }

  /** The dataset a rank trains on, given whether the process group is
      initialised and the `distributed` flag; the group supplies a world
      size of at least one and a rank below it. */
  function ShardOf(total: nat, rank: nat, worldSize: nat, initialized: bool, distributed: bool): (s: Shard)
    requires initialized && distributed ==> rank < worldSize
    ensures s.Part? <==> initialized && distributed
    ensures s.Part? ==> 0 <= s.start && s.start + s.length <= total && s.length == total / worldSize
  {
    if initialized && distributed then
      ShardInside(total, rank, worldSize);
      Part(ShardStart(total, rank, worldSize), ShardLength(total, worldSize))
    else
      Whole
  }

  /** Rank `r`'s shard ends no later than rank `r + 1`'s starts. */
  lemma {:induction false} ShardEndsBeforeNext(total: nat, rank: nat, worldSize: nat)
    requires worldSize > 0
    ensures ShardStart(total, rank, worldSize) + ShardLength(total, worldSize) <=
      ShardStart(total, rank + 1, worldSize)
  {
    DivAdd(total * rank, total, worldSize);
    assert total * rank + total == total * (rank + 1);
  }

  /** Every shard lies inside the dataset. */
  lemma {:induction false} ShardInside(total: nat, rank: nat, worldSize: nat)
    requires rank < worldSize
    ensures ShardStart(total, rank, worldSize) + ShardLength(total, worldSize) <= total
  {
    ShardEndsBeforeNext(total, rank, worldSize);
    MulLe(total, rank + 1, worldSize);
    DivMonotone(total * (rank + 1), total * worldSize, worldSize);
    QuotientExact(total, worldSize);
  }

  /** Shards of distinct ranks do not overlap: a lower rank's shard ends
      before a higher rank's begins. */
  lemma {:induction false} ShardsDisjoint(total: nat, r: nat, s: nat, worldSize: nat)
    requires r < s && worldSize > 0
    ensures ShardStart(total, r, worldSize) + ShardLength(total, worldSize) <= ShardStart(total, s, worldSize)
  {
    ShardEndsBeforeNext(total, r, worldSize);
    MulLe(total, r + 1, s);
    DivMonotone(total * (r + 1), total * s, worldSize);
  }

  /** The records given to the first `k` ranks, counted shard by shard. */
  function Assigned(total: nat, worldSize: nat, k: nat): nat
    requires worldSize > 0
  {
    if k == 0 then 0 else Assigned(total, worldSize, k - 1) + ShardLength(total, worldSize)
  }

  /** All ranks together get `n * (L // n)` records; the `L mod n`
      records left over, fewer than `n`, go to nobody. */
  lemma {:induction false} AssignedTotal(total: nat, worldSize: nat, k: nat)
    requires worldSize > 0
    ensures Assigned(total, worldSize, k) == k * (total / worldSize)
    ensures k == worldSize ==> total - Assigned(total, worldSize, k) == total % worldSize < worldSize
  {
    if k > 0 {
      AssignedTotal(total, worldSize, k - 1);
      assert k * (total / worldSize) == (k - 1) * (total / worldSize) + total / worldSize;
    }
  }

  /** A shard needs no clamping by the wrapper: its `start + length` is
      already within the dataset, so the window it opens is exactly the
      shard. */
  lemma {:induction false} ShardNotClamped(total: nat, rank: nat, worldSize: nat)
    requires rank < worldSize
    ensures var s := ShardOf(total, rank, worldSize, true, true);
      Min(s.start + s.length, total) == s.start + s.length
  {
  }
}
