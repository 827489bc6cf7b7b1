/** The one percentage every report shows. */
module Percentage {

  // Percentage rounded half up; zero when there is no capacity.
  function Percent(used: int, available: int): int {
    if available <= 0 then 0 else (200 * used + available) / (2 * available)
  }

  // It is the whole number nearest to 100 * used / available, the upper one of two, and no other.
  lemma PercentIsNearest(used: int, available: int, p: int)
    requires available > 0
    ensures p == Percent(used, available) <==> -available <= 200 * used - 2 * available * p < available
  {
    var x, t := 200 * used + available, 2 * available;
    SmallMultiple(t, p - x / t);
    assert t * (p - x / t) == t * p - t * (x / t);
  }

  // Between -t and t there is no multiple of t but zero.
  lemma SmallMultiple(t: int, d: int)
    requires t > 0
    ensures d == 0 <==> -t < t * d < t
  {
    if d > 0 {
      NonNegative(t, d - 1);
      assert t * d == t + t * (d - 1);
    } else if d < 0 {
      NonNegative(t, -d - 1);
      assert t * d == -t - t * (-d - 1);
    }
  }

  lemma NonNegative(x: int, y: int)
    requires x >= 0 && y >= 0
    ensures x * y >= 0
  {
  }

  lemma PercentReaches(used: int, available: int, k: int)
    requires available > 0
    ensures k <= Percent(used, available) <==> 2 * available * k <= 200 * used + available
  {
    var p, t := Percent(used, available), 2 * available;
    PercentIsNearest(used, available, p);
    if k <= p {
      NonNegative(t, p - k);
      assert t * (p - k) == t * p - t * k;
    } else {
      NonNegative(t, k - p - 1);
      assert t * (k - p - 1) == t * k - t * p - t;
    }
  }

  // A larger share of the capacity never shows as less.
  lemma PercentFollowsShare(used: int, available: int, used': int, available': int)
    requires available > 0 && available' > 0 && used * available' <= used' * available
    ensures Percent(used, available) <= Percent(used', available')
  {
    var p := Percent(used, available);
    PercentReaches(used, available, p);
    PercentReaches(used', available', p);
    NonNegative(200 * used + available - 2 * available * p, available');
    CrossMultiplied(used, available, used', available', p);
    SignOfProduct(available, 200 * used' + available' - 2 * available' * p);
  }

  lemma CrossMultiplied(used: int, available: int, used': int, available': int, p: int)
    requires used * available' <= used' * available
    requires (200 * used + available - 2 * available * p) * available' >= 0
    ensures available * (200 * used' + available' - 2 * available' * p) >= 0
  {
    assert (200 * used + available - 2 * available * p) * available'
      == 200 * (used * available') + available * available' - 2 * (available * available') * p;
    assert available * (200 * used' + available' - 2 * available' * p)
      == 200 * (used' * available) + available * available' - 2 * (available * available') * p;
  }

  lemma SignOfProduct(x: int, y: int)
    requires x > 0
    ensures y >= 0 <==> x * y >= 0
  {
    if y < 0 {
      NonNegative(x, -y - 1);
      assert x * y == -x - x * (-y - 1);
    }
  }

  // Nothing used shows as zero, and all of the capacity as a hundred.
  lemma PercentEnds(available: int)
    requires available > 0
    ensures Percent(0, available) == 0 && Percent(available, available) == 100
  {
    PercentIsNearest(0, available, 0);
    PercentIsNearest(available, available, 100);
  }
}
