/**
 * Count bucketing: exact counts are replaced by one of eight range labels so
 * that small counts cannot single out individuals.
 */
module Bucketing {
  import opened Types

  /** The eight labels, in ascending order of the ranges they stand for. */
  const BUCKET_LABELS: seq<string> := ["0", "1", "2-5", "6-10", "11-20", "21-100", "101-1000", ">1000"]

  /** Lower and upper bound of each bucket; the last one is unbounded above. */
  const BUCKET_LOW: seq<nat> := [0, 1, 2, 6, 11, 21, 101, 1001]
  const BUCKET_HIGH: seq<nat> := [0, 1, 5, 10, 20, 100, 1000]

  /** Position of `n`'s bucket in `BUCKET_LABELS`. */
  function BucketIndex(n: nat): (b: nat)
    ensures b < |BUCKET_LABELS|
    ensures BUCKET_LOW[b] <= n
    ensures b < |BUCKET_HIGH| ==> n <= BUCKET_HIGH[b]
  {
    if n == 0 then 0
    else if n == 1 then 1
    else if n <= 5 then 2
    else if n <= 10 then 3
    else if n <= 20 then 4
    else if n <= 100 then 5
    else if n <= 1000 then 6
    else 7
  }

  /** `bucket_count`: the label of the range containing `n`. */
  function BucketCount(n: nat): (name: string)
    ensures name in BUCKET_LABELS
    ensures |name| <= 8
  {
    match n
    case 0 => "0"
    case 1 => "1"
    case _ =>
      if n <= 5 then "2-5"
      else if n <= 10 then "6-10"
      else if n <= 20 then "11-20"
      else if n <= 100 then "21-100"
      else if n <= 1000 then "101-1000"
      else ">1000"
  }

  /**
   * Soundness and totality: the label is the one at `n`'s bucket, and that
   * bucket's range contains `n`; since the labels are distinct, exactly one
   * label applies.
   */
  lemma BucketCountSound(n: nat)
    ensures BucketCount(n) == BUCKET_LABELS[BucketIndex(n)]
    ensures BUCKET_LOW[BucketIndex(n)] <= n
    ensures BucketIndex(n) < 7 ==> n <= BUCKET_HIGH[BucketIndex(n)]
    ensures BucketCount(n) == ">1000" <==> n > 1000
  {
  }

  /** Distinct buckets carry distinct labels. */
  lemma BucketLabelsDistinct(i: nat, j: nat)
    requires i < j < |BUCKET_LABELS|
    ensures BUCKET_LABELS[i] != BUCKET_LABELS[j]
  {
  }

  /** Larger counts never fall into a lower bucket. */
  lemma BucketMonotonic(n: nat, m: nat)
    requires n <= m
    ensures BucketIndex(n) <= BucketIndex(m)
  {
  }

  /** Every label fits the short-string limit. */
  lemma BucketLabelFits(n: nat)
    ensures |BucketCount(n)| <= MAX_SHORT_STRING_LEN
  {
  }

  /** The boundary cases of the range table. */
  lemma BucketBoundaries()
    ensures BucketCount(0) == "0" && BucketCount(1) == "1"
    ensures BucketCount(2) == "2-5" && BucketCount(5) == "2-5"
    ensures BucketCount(6) == "6-10" && BucketCount(10) == "6-10"
    ensures BucketCount(11) == "11-20" && BucketCount(20) == "11-20"
    ensures BucketCount(21) == "21-100" && BucketCount(100) == "21-100"
    ensures BucketCount(101) == "101-1000" && BucketCount(1000) == "101-1000"
    ensures BucketCount(1001) == ">1000"
  {
  }

  /**
   * `safe_count`: the bucket label when bucketing, otherwise the count cast
   * to `i64` (which wraps for counts of 2^63 and more).
   */
  function SafeCount(n: nat, bucket: bool): (r: SafeValue)
    requires n < U64_LIMIT
    ensures bucket ==> r == ShortString(BucketCount(n))
    ensures !bucket ==> r.Integer? && (n <= I64_MAX ==> r.i == n)
    ensures !bucket ==> r == Integer(AsI64(n))
  {
    if bucket then ShortString(BucketCount(n)) else Integer(AsI64(n))
  }
}
