/** Splitting a whole number in proportion to weights without losing a unit. */
module Distribution {

  function SumOf(s: seq<int>): int {
    if s == [] then 0 else SumOf(s[..|s| - 1]) + s[|s| - 1]
  }

  // The whole part of each exact share.
  function Floors(total: nat, weights: seq<nat>, span: nat): (parts: seq<int>)
    requires span > 0
    ensures |parts| == |weights|
  {
    seq(|weights|, k requires 0 <= k < |weights| => total * weights[k] / span)
  }

  // Whole parts, with what is left over added to the last.
  function Distribute(total: nat, weights: seq<nat>): (parts: seq<int>)
    ensures |parts| == |weights|
  {
    var n := |weights|;
    if n == 0 then []
    else if n == 1 then [total]
    else
      var span := if SumOf(weights) > 0 then SumOf(weights) else 1;
      var parts := Floors(total, weights, span);
      parts[n - 1 := parts[n - 1] + (total - SumOf(parts))]
  }

  lemma SumOfUpdatedLast(s: seq<int>, x: int)
    requires s != []
    ensures SumOf(s[|s| - 1 := x]) == SumOf(s[..|s| - 1]) + x
  {
    assert s[|s| - 1 := x][..|s| - 1] == s[..|s| - 1];
  }

  // part is the exact share total * w / span rounded down.
  predicate RoundedDown(total: nat, w: int, span: int, part: int) {
    0 <= total * w - part * span < span
  }

  // part is the exact share and at most slack / span more.
  predicate RoundedUp(total: nat, w: int, span: int, part: int, slack: int) {
    0 <= part * span - total * w <= slack
  }

  lemma WholePart(total: nat, w: nat, span: nat)
    requires span > 0
    ensures RoundedDown(total, w, span, total * w / span) && total * w / span >= 0
  {
    var x := total * w;
    assert x == x / span * span + x % span;
  }

  // The whole parts fall short of the exact shares by less than one unit each.
  lemma {:induction false} FloorsFallShort(total: nat, weights: seq<nat>, span: nat)
    requires span > 0
    ensures 0 <= total * SumOf(weights) - SumOf(Floors(total, weights, span)) * span <= |weights| * (span - 1)
  {
    if weights != [] {
      var n := |weights| - 1;
      FloorsFallShort(total, weights[..n], span);
      assert Floors(total, weights, span)[..n] == Floors(total, weights[..n], span);
      WholePart(total, weights[n], span);
      OneMoreShare(
        total, SumOf(weights[..n]), weights[n], SumOf(Floors(total, weights[..n], span)),
        total * weights[n] / span, span, n);
    }
  }

  lemma OneMoreShare(total: nat, ws: int, w: nat, head: int, part: int, span: nat, n: nat)
    requires 0 <= total * ws - head * span <= n * (span - 1)
    requires RoundedDown(total, w, span, part)
    ensures 0 <= total * (ws + w) - (head + part) * span <= (n + 1) * (span - 1)
  {
    assert total * (ws + w) == total * ws + total * w;
    assert (head + part) * span == head * span + part * span;
    assert (n + 1) * (span - 1) == n * (span - 1) + (span - 1);
  }

  lemma Sign(x: int, y: nat)
    ensures x < 0 < y ==> x * y < 0
    ensures x >= 0 ==> x * y >= 0
  {
  }

  // What is left for the last part when the whole parts before it fall short.
  lemma LastShare(total: nat, ws: int, w: nat, head: int, span: nat, slack: int)
    requires span == ws + w && 0 <= total * ws - head * span <= slack
    ensures RoundedUp(total, w, span, total - head, slack)
    ensures total - head >= 0 || span == 0 || w < 0
  {
    assert total * span == total * ws + total * w;
    assert (total - head) * span == total * span - head * span;
    Sign(total - head, span);
    Sign(w, total);
  }

  lemma {:induction false} SumOfWeights(weights: seq<nat>)
    ensures SumOf(weights) >= 0
    ensures forall k :: 0 <= k < |weights| ==> weights[k] <= SumOf(weights)
  {
    if weights != [] {
      SumOfWeights(weights[..|weights| - 1]);
    }
  }

  // Nothing is lost: the parts add up to the total.
  lemma DistributeConserves(total: nat, weights: seq<nat>)
    requires weights != []
    ensures SumOf(Distribute(total, weights)) == total
  {
    var n := |weights|;
    if n == 1 {
      assert [total][..0] == [];
    } else {
      var span := if SumOf(weights) > 0 then SumOf(weights) else 1;
      var parts := Floors(total, weights, span);
      SumOfUpdatedLast(parts, parts[n - 1] + (total - SumOf(parts)));
    }
  }

  lemma LastPartIsProportional(total: nat, weights: seq<nat>)
    requires |weights| > 1 && SumOf(weights) > 0
    ensures
      var span, k := SumOf(weights), |weights| - 1;
      var part := Distribute(total, weights)[k];
      part >= 0 && RoundedUp(total, weights[k], span, part, k * (span - 1))
  {
    hide RoundedUp;
    var span, k := SumOf(weights), |weights| - 1;
    var parts := Floors(total, weights, span);
    assert parts[..k] == Floors(total, weights[..k], span);
    FloorsFallShort(total, weights[..k], span);
    LastShare(total, SumOf(weights[..k]), weights[k], SumOf(parts[..k]), span, k * (span - 1));
  }

  lemma OnlyPartIsProportional(total: nat, weights: seq<nat>)
    requires |weights| == 1
    ensures RoundedUp(total, weights[0], SumOf(weights), Distribute(total, weights)[0], 0)
  {
    assert weights[..0] == [];
  }

  // Every part but the last is its exact share rounded down; the last exceeds its exact share
  // by less than one unit per other part. No part is negative.
  lemma DistributeIsProportional(total: nat, weights: seq<nat>, k: nat)
    requires k < |weights| && SumOf(weights) > 0
    ensures
      var span, part := SumOf(weights), Distribute(total, weights)[k];
      && part >= 0
      && (if k < |weights| - 1 then RoundedDown(total, weights[k], span, part)
          else RoundedUp(total, weights[k], span, part, k * (span - 1)))
  {
    hide RoundedDown;
    hide RoundedUp;
    if |weights| == 1 {
      OnlyPartIsProportional(total, weights);
    } else if k < |weights| - 1 {
      WholePart(total, weights[k], SumOf(weights));
    } else {
      LastPartIsProportional(total, weights);
    }
  }
}
