/** How the configured budgets are dealt out to the shards. */
module Budgets {
  import opened Wrappers

  datatype Limits = Limits(maxEntries: nat, maxBytes: nat, negativePercent: nat, shards: nat)

  predicate ValidLimits(l: Limits) {
    1 <= l.maxEntries && 512 <= l.maxBytes && l.negativePercent <= 90 && 1 <= l.shards <= 256
  }

  function NegativeEntries(l: Limits): nat {
    l.maxEntries * l.negativePercent / 100
  }

  function NegativeBytes(l: Limits): nat {
    if NegativeEntries(l) == 0 then 0 else l.maxBytes * l.negativePercent / 100
  }

  /** The number of shards, lowered until every one can hold something. */
  function ShardCount(l: Limits): (n: nat)
    requires ValidLimits(l)
    ensures 1 <= n <= 256
  {
    NegativeWithin(l);
    var positiveEntries := l.maxEntries - NegativeEntries(l);
    var positiveBytes := l.maxBytes - NegativeBytes(l);
    var a := Min(l.shards, Max(positiveEntries, 1));
    var b := if NegativeEntries(l) == 0 then a else Min(a, NegativeEntries(l));
    var c := Min(b, Max(positiveBytes / 1024, 1));
    var d := if NegativeEntries(l) == 0 then c else Min(c, Max(NegativeBytes(l) / 1024, 1));
    Max(d, 1)
  }

  lemma NegativeWithin(l: Limits)
    requires ValidLimits(l)
    ensures NegativeEntries(l) <= l.maxEntries && NegativeBytes(l) <= l.maxBytes
  {
    PercentWithin(l.maxEntries, l.negativePercent);
    PercentWithin(l.maxBytes, l.negativePercent);
  }

  lemma PercentWithin(total: nat, percent: nat)
    requires percent <= 100
    ensures total * percent / 100 <= total
  {
    assert total * percent <= total * 100;
  }

  /** The share of shard `i`. */
  function Portion(total: nat, count: nat, i: nat): nat
    requires 0 < count
  {
    total / count + (if i < total % count then 1 else 0)
  }

  function PortionSum(total: nat, count: nat, k: nat): nat
    requires 0 < count
  {
    if k == 0 then 0 else PortionSum(total, count, k - 1) + Portion(total, count, k - 1)
  }

  lemma {:induction false} PortionPrefix(total: nat, count: nat, k: nat)
    requires 0 < count && k <= count
    ensures PortionSum(total, count, k) == k * (total / count) + Min(k, total % count)
  {
    if k > 0 {
      PortionPrefix(total, count, k - 1);
      assert k * (total / count) == (k - 1) * (total / count) + total / count;
    }
  }

  /** Nothing is lost or invented: the portions add up to the whole, and no two
      shards differ by more than one. */
  lemma PortionsAddUp(total: nat, count: nat)
    requires 0 < count
    ensures PortionSum(total, count, count) == total
    ensures forall i, j :: 0 <= i < count && 0 <= j < count ==> Portion(total, count, i) <= Portion(total, count, j) + 1
  {
    PortionPrefix(total, count, count);
    assert count * (total / count) + total % count == total;
  }

  /** Entries and bytes of both partitions of shard `i`. */
  function ShardBudgets(l: Limits, i: nat): seq<(nat, nat)>
    requires ValidLimits(l)
  {
    NegativeWithin(l);
    var n := ShardCount(l);
    [(Portion(l.maxEntries - NegativeEntries(l), n, i), Portion(l.maxBytes - NegativeBytes(l), n, i)),
     (Portion(NegativeEntries(l), n, i), Portion(NegativeBytes(l), n, i))]
  }

  function EntrySum(l: Limits, k: nat): nat
    requires ValidLimits(l)
  {
    if k == 0 then 0 else EntrySum(l, k - 1) + ShardBudgets(l, k - 1)[0].0 + ShardBudgets(l, k - 1)[1].0
  }

  function ByteSum(l: Limits, k: nat): nat
    requires ValidLimits(l)
  {
    if k == 0 then 0 else ByteSum(l, k - 1) + ShardBudgets(l, k - 1)[0].1 + ShardBudgets(l, k - 1)[1].1
  }

  /** Entries and bytes of one partition in the first `k` shards. */
  function PartTotal(l: Limits, part: nat, k: nat): (nat, nat)
    requires ValidLimits(l) && part < 2
  {
    if k == 0 then (0, 0)
    else
      var rest, own := PartTotal(l, part, k - 1), ShardBudgets(l, k - 1)[part];
      (rest.0 + own.0, rest.1 + own.1)
  }

  lemma {:induction false} PartSplit(l: Limits, k: nat)
    requires ValidLimits(l)
    ensures NegativeEntries(l) <= l.maxEntries && NegativeBytes(l) <= l.maxBytes
    ensures PartTotal(l, 0, k).0 == PortionSum(l.maxEntries - NegativeEntries(l), ShardCount(l), k)
    ensures PartTotal(l, 0, k).1 == PortionSum(l.maxBytes - NegativeBytes(l), ShardCount(l), k)
    ensures PartTotal(l, 1, k).0 == PortionSum(NegativeEntries(l), ShardCount(l), k)
    ensures PartTotal(l, 1, k).1 == PortionSum(NegativeBytes(l), ShardCount(l), k)
  {
    hide Portion, ShardCount, NegativeEntries, NegativeBytes;
    NegativeWithin(l);
    if k > 0 {
      PartSplit(l, k - 1);
    }
  }

  /** The negative partitions together have the configured percentage, and no
      bytes if that is no entry; the positive ones have the rest. */
  lemma PartitionsShareByPercent(l: Limits)
    requires ValidLimits(l)
    ensures var entries := l.maxEntries * l.negativePercent / 100;
      var bytes := if entries == 0 then 0 else l.maxBytes * l.negativePercent / 100;
      && PartTotal(l, 1, ShardCount(l)) == (entries, bytes)
      && entries <= l.maxEntries && bytes <= l.maxBytes
      && PartTotal(l, 0, ShardCount(l)) == (l.maxEntries - entries, l.maxBytes - bytes)
  {
    hide PortionSum, ShardCount, PartTotal;
    var n := ShardCount(l);
    PartSplit(l, n);
    PortionsAddUp(l.maxEntries - NegativeEntries(l), n);
    PortionsAddUp(NegativeEntries(l), n);
    PortionsAddUp(l.maxBytes - NegativeBytes(l), n);
    PortionsAddUp(NegativeBytes(l), n);
  }

  /** With `n` shards, each one has an entry and a kilobyte in every partition
      that is in use; a single shard takes what there is. */
  ghost predicate Enough(l: Limits, n: nat) {
    var entries := l.maxEntries * l.negativePercent / 100;
    var bytes := if entries == 0 then 0 else l.maxBytes * l.negativePercent / 100;
    n == 1 || (n <= l.maxEntries - entries && 1024 * n <= l.maxBytes - bytes &&
               (entries > 0 ==> n <= entries && 1024 * n <= bytes))
  }

  /** The shard count is the largest one that is not above the configured number
      and gives every shard enough. */
  lemma ShardCountIsLargest(l: Limits, n: nat)
    requires ValidLimits(l) && 1 <= n <= l.shards
    ensures 1 <= ShardCount(l) <= l.shards && Enough(l, ShardCount(l))
    ensures Enough(l, n) ==> n <= ShardCount(l)
  {
    NegativeWithin(l);
    var negative := l.maxEntries * l.negativePercent / 100;
    assert NegativeEntries(l) == negative;
    hide NegativeEntries;
  }

  lemma {:induction false} SumsSplit(l: Limits, k: nat)
    requires ValidLimits(l)
    ensures NegativeEntries(l) <= l.maxEntries && NegativeBytes(l) <= l.maxBytes
    ensures EntrySum(l, k) == PortionSum(l.maxEntries - NegativeEntries(l), ShardCount(l),
                                         k) + PortionSum(NegativeEntries(l), ShardCount(l), k)
    ensures ByteSum(l, k) == PortionSum(l.maxBytes - NegativeBytes(l), ShardCount(l), k) + PortionSum(NegativeBytes(l), ShardCount(l), k)
  {
    hide Portion, ShardCount, NegativeEntries, NegativeBytes;
    NegativeWithin(l);
    if k > 0 {
      SumsSplit(l, k - 1);
    }
  }

  /** The budgets of all shards together are the configured totals. */
  lemma ShardsShareTheWhole(l: Limits)
    requires ValidLimits(l)
    ensures EntrySum(l, ShardCount(l)) == l.maxEntries
    ensures ByteSum(l, ShardCount(l)) == l.maxBytes
  {
    hide PortionSum, ShardCount, NegativeEntries, NegativeBytes, EntrySum, ByteSum;
    var n := ShardCount(l);
    SumsSplit(l, n);
    PortionsAddUp(l.maxEntries - NegativeEntries(l), n);
    PortionsAddUp(NegativeEntries(l), n);
    PortionsAddUp(l.maxBytes - NegativeBytes(l), n);
    PortionsAddUp(NegativeBytes(l), n);
  }
}
