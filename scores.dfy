/**
 * What the benchmark runners share: the record one generation call returns, the
 * counting of verdicts and the percentage formula with its zero guard.
 */
module Scores {
  import opened Options

  /**
   * What one call of the generation client returns. The call itself (HTTP,
   * retries, sleeping) is outside the model: runners receive these records,
   * one per problem, in order.
   */
  datatype Generation = Generation(success: bool, response: string, error: Option<string>)

  /** The number of true entries. */
  function Count(bs: seq<bool>): (n: nat)
    ensures n <= |bs|
    ensures n == |bs| <==> forall k :: 0 <= k < |bs| ==> bs[k]
  {
    if bs == [] then 0 else Count(bs[..|bs| - 1]) + (if bs[|bs| - 1] then 1 else 0)
  }

  /** Counting one more entry adds one when that entry is true. */
  lemma CountPrefix(bs: seq<bool>, k: nat)
    requires k < |bs|
    ensures Count(bs[..k + 1]) == Count(bs[..k]) + (if bs[k] then 1 else 0)
  {
    assert bs[..k + 1][..k] == bs[..k];
  }

  /** A prefix one longer is the shorter prefix and the next element. */
  lemma PrefixSnoc<T>(s: seq<T>, k: nat)
    requires k < |s|
    ensures s[..k + 1] == s[..k] + [s[k]]
  {
  }

  /** The flag `flag` picks out of each record, in order. */
  function Flags<R>(records: seq<R>, flag: R -> bool): (bs: seq<bool>)
    ensures |bs| == |records|
  {
    seq(|records|, k requires 0 <= k < |records| => flag(records[k]))
  }

  /** Appending a record adds one to the count exactly when its flag is set. */
  lemma CountAppend<R>(records: seq<R>, r: R, flag: R -> bool)
    ensures Count(Flags(records + [r], flag)) == Count(Flags(records, flag)) + (if flag(r) then 1 else 0)
  {
    assert Flags(records + [r], flag)[..|records|] == Flags(records, flag);
  }

  /** Counting is monotone: wherever `a` holds `b` holds, so `b` counts at least as many. */
  lemma {:induction false} CountMonotone(a: seq<bool>, b: seq<bool>)
    requires |a| == |b|
    requires forall k :: 0 <= k < |a| && a[k] ==> b[k]
    ensures Count(a) <= Count(b)
  {
    if a != [] {
      CountMonotone(a[..|a| - 1], b[..|b| - 1]);
    }
  }

  /** `count / total * 100`, and 0 when there is nothing to divide by. */
  function Rate(count: nat, total: nat): (r: real)
    ensures total == 0 ==> r == 0.0
    ensures total > 0 ==> r * total as real == count as real * 100.0
  {
    if total == 0 then 0.0 else count as real / total as real * 100.0
  }

  /** A rate is a percentage, and it is 100 exactly when everything counted. */
  lemma RateBounds(count: nat, total: nat)
    requires count <= total
    ensures 0.0 <= Rate(count, total) <= 100.0
    ensures total > 0 ==> (Rate(count, total) == 100.0 <==> count == total)
  {
    if total > 0 {
      var q := count as real / total as real;
      assert q * total as real == count as real;
      assert q <= 1.0;
    }
  }
}
