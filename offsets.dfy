/** Running totals of dimensions. The constructor of the device operator uses
    the same accumulation twice: `starti` gives every trial proxy its first
    component in the flattened per-point input, and `base_output` gives every
    coefficient function its first component in the per-point output. */
module RunningTotals {

  /** Total of a list of dimensions, accumulated left to right as the source does. */
  function Sum(ds: seq<nat>): nat {
    if ds == [] then 0 else Sum(ds[..|ds| - 1]) + ds[|ds| - 1]
  }

  /** The offset table: entry k is the total dimension of the entries before k. */
  function Offsets(ds: seq<nat>): seq<nat> {
    seq(|ds|, k requires 0 <= k < |ds| => Sum(ds[..k]))
  }

  /** Component range [Offsets(ds)[k], Offsets(ds)[k] + ds[k]) of entry k. */
  predicate InRange(ds: seq<nat>, k: nat, c: int)
    requires k < |ds|
  {
    Offsets(ds)[k] <= c < Offsets(ds)[k] + ds[k]
  }

  lemma SumStep(ds: seq<nat>, k: nat)
    requires k < |ds|
    ensures Sum(ds[..k + 1]) == Sum(ds[..k]) + ds[k]
  {
    assert ds[..k + 1][..k] == ds[..k];
  }

  /** Totals of longer prefixes are never smaller. */
  lemma {:induction false} SumMonotone(ds: seq<nat>, k: nat, l: nat)
    requires k <= l <= |ds|
    ensures Sum(ds[..k]) <= Sum(ds[..l])
    decreases l - k
  {
    if k < l {
      SumStep(ds, l - 1);
      SumMonotone(ds, k, l - 1);
    }
  }

  /** The table has one entry per input, starts at 0, each entry follows the
      previous one by exactly the previous dimension, and the last range ends
      at the total. */
  lemma OffsetsContiguous(ds: seq<nat>)
    ensures |Offsets(ds)| == |ds|
    ensures |ds| > 0 ==> Offsets(ds)[0] == 0
    ensures forall k :: 0 <= k < |ds| - 1 ==> Offsets(ds)[k + 1] == Offsets(ds)[k] + ds[k]
    ensures |ds| > 0 ==> Offsets(ds)[|ds| - 1] + ds[|ds| - 1] == Sum(ds)
  {
    forall k | 0 <= k < |ds| - 1
      ensures Offsets(ds)[k + 1] == Offsets(ds)[k] + ds[k]
    {
      SumStep(ds, k);
    }
    if |ds| > 0 {
      SumStep(ds, |ds| - 1);
      assert ds[..|ds|] == ds;
    }
  }

  /** Earlier ranges end before later ranges begin: the offsets are
      nondecreasing and the ranges are pairwise disjoint. */
  lemma RangesDisjoint(ds: seq<nat>, k: nat, l: nat)
    requires k < l < |ds|
    ensures Offsets(ds)[k] + ds[k] <= Offsets(ds)[l]
    ensures forall c :: !(InRange(ds, k, c) && InRange(ds, l, c))
  {
    SumStep(ds, k);
    SumMonotone(ds, k + 1, l);
  }

  /** Every range lies inside [0, Sum(ds)). */
  lemma RangeWithinTotal(ds: seq<nat>, k: nat)
    requires k < |ds|
    ensures Offsets(ds)[k] + ds[k] <= Sum(ds)
  {
    SumStep(ds, k);
    SumMonotone(ds, k + 1, |ds|);
    assert ds[..|ds|] == ds;
  }

  /** The entry whose range holds component c; together the ranges cover [0, Sum(ds)). */
  function Owner(ds: seq<nat>, c: nat): (k: nat)
    requires c < Sum(ds)
    ensures k < |ds| && InRange(ds, k, c)
    decreases |ds|
  {
    var n := |ds| - 1;
    var front := ds[..n];
    assert forall j :: 0 <= j <= n ==> front[..j] == ds[..j];
    if c >= Sum(front) then
      assert ds[..n] == front && ds[..n + 1] == ds;
      SumStep(ds, n);
      n
    else
      Owner(front, c)
  }

  /** No other entry's range holds c: each component belongs to exactly one entry. */
  lemma OwnerUnique(ds: seq<nat>, c: nat, k: nat)
    requires c < Sum(ds) && k < |ds| && InRange(ds, k, c)
    ensures k == Owner(ds, c)
  {
    var o := Owner(ds, c);
    if k < o {
      RangesDisjoint(ds, k, o);
    } else if o < k {
      RangesDisjoint(ds, o, k);
    }
  }
}
