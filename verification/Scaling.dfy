/** Counts given as a number or as a percentage of a total
    (`intstr.GetScaledValueFromIntOrPercent` of the Kubernetes API machinery). */
module Scaling {
  import opened Keys

  datatype IntOrPercent = Count(count: int) | Percent(percent: int) | Malformed

  /** None stands for the conversion error of a malformed percentage. */
  function Scaled(v: IntOrPercent, total: nat, roundUp: bool): Option<int> {
    match v
    case Count(n) => Some(n)
    case Percent(p) => Some(if roundUp then CeilDiv(p * total, 100) else p * total / 100)
    case Malformed => None
  }

  function CeilDiv(a: int, b: int): int
    requires b > 0
  {
    -((-a) / b)
  }

  /** A share rounded up is the least number, one rounded down the greatest, that lies on its side of
      the exact value. */
  lemma SharesRounded(p: int, total: nat)
    ensures 100 * (CeilDiv(p * total, 100) - 1) < p * total <= 100 * CeilDiv(p * total, 100)
    ensures 100 * (p * total / 100) <= p * total < 100 * (p * total / 100 + 1)
  {
  }

  lemma ProductMonotone(a: int, b: int, n: nat)
    requires a <= b
    ensures a * n <= b * n
  {
  }

  /** Larger percentages never give smaller shares. */
  lemma PercentMonotone(p: int, q: int, total: nat)
    requires p <= q
    ensures p * total / 100 <= q * total / 100
    ensures CeilDiv(p * total, 100) <= CeilDiv(q * total, 100)
  {
    ProductMonotone(p, q, total);
  }

  /** Rounding one share up and the complementary share down always fits in the total. */
  lemma SharesFit(online: int, offline: int, total: nat)
    requires online + offline <= 100
    ensures CeilDiv(online * total, 100) + offline * total / 100 <= total
  {
    ProductMonotone(offline, 100 - online, total);
    assert (100 - online) * total == 100 * total - online * total;
  }
}
