/**
 * Utilization: the share of a client's allowance already used, in percent,
 * and the progress bar that shows it.
 */
module Utilization {
  import opened Types

  /** The fixed annual allowance. */
  const TotalAnnualUnits: real := 960.0

  /** The allowance per assigned month in monthly mode. */
  const HoursPerMonth: real := 20.0

  /** `client.monthsAssigned || 1`: an absent or zero month count stands for one month. */
  function MonthsOrOne(c: Client): int {
    if c.monthsAssigned.Some? && c.monthsAssigned.value != 0 then c.monthsAssigned.value else 1
  }

  /** The record's month count, when it has one, is not negative. */
  predicate MonthsNonNegative(c: Client) {
    c.monthsAssigned.None? || c.monthsAssigned.value >= 0
  }

  /** The allowance the utilization is measured against. */
  function Capacity(c: Client): (cap: real)
    ensures cap != 0.0
    ensures MonthsNonNegative(c) ==> cap > 0.0
    ensures c.unitsMode == Annual ==> cap == TotalAnnualUnits
    ensures c.unitsMode == Monthly && MonthsNonNegative(c) ==> cap >= HoursPerMonth
    ensures c.unitsMode == Monthly && c.monthsAssigned.Some? && c.monthsAssigned.value != 0 ==>
              cap == HoursPerMonth * (c.monthsAssigned.value as real)
    ensures c.unitsMode == Monthly && (c.monthsAssigned.None? || c.monthsAssigned.value == 0) ==>
              cap == HoursPerMonth
  {
    if c.unitsMode == Monthly then HoursPerMonth * (MonthsOrOne(c) as real) else TotalAnnualUnits
  }

  /** `calculateUtilization`: units used as a percentage of the allowance, unclamped. */
  function UtilizationOf(c: Client): (u: real)
    ensures u * Capacity(c) == 100.0 * c.unitsUsed
    ensures c.unitsUsed >= 0.0 && MonthsNonNegative(c) ==> u >= 0.0
    ensures MonthsNonNegative(c) ==> (u > 100.0 <==> c.unitsUsed > Capacity(c))
  {
    var u := (c.unitsUsed / Capacity(c)) * 100.0;
    assert MonthsNonNegative(c) ==> (u > 100.0 <==> c.unitsUsed > Capacity(c)) by {
      if MonthsNonNegative(c) {
        PercentAbove(c.unitsUsed, Capacity(c), u);
      }
    }
    u
  }

  /** A percentage `u` of a positive `cap` exceeds 100 exactly when the amount exceeds `cap`. */
  lemma PercentAbove(x: real, cap: real, u: real)
    requires cap > 0.0 && u == (x / cap) * 100.0
    ensures u > 100.0 <==> x > cap
  {
    assert u * cap == 100.0 * x;
    ScaleByPositive(u, 100.0, cap);
  }

  /** Multiplying both sides by a positive factor keeps a strict comparison. */
  lemma ScaleByPositive(x: real, y: real, k: real)
    requires k > 0.0
    ensures x > y <==> x * k > y * k
  {
    if x > y {
      assert (x - y) * k > 0.0;
    }
    if x <= y {
      assert (y - x) * k >= 0.0;
    }
  }

  /** `Math.min(100, utilization)`: the width of the bar, in percent. */
  function BarWidth(u: real): (w: real)
    ensures w <= 100.0 && w <= u
    ensures w == u || w == 100.0
  {
    if u < 100.0 then u else 100.0
  }

  /** The bar and the figure turn red above 100%. */
  predicate OverAllocated(u: real) {
    u > 100.0
  }

  /** A client is flagged exactly when the bar had to be cut short, which is exactly
      when it has used more than its allowance. */
  lemma FlaggedIffBarClamped(c: Client)
    requires MonthsNonNegative(c)
    ensures BarWidth(UtilizationOf(c)) <= 100.0
    ensures OverAllocated(UtilizationOf(c)) <==> BarWidth(UtilizationOf(c)) < UtilizationOf(c)
    ensures OverAllocated(UtilizationOf(c)) <==> c.unitsUsed > Capacity(c)
  {
  }

  /** A client record with the given allocation and placeholder text fields. */
  function Allocated(unitsUsed: real, mode: UnitsMode, months: Option<int>): Client {
    Client("c1", "Client", "Clinician", "2024-01-01", unitsUsed, NewAuthorization, "2024-01-01", mode, months)
  }

  /** Worked examples: 30 hours over 2 months is 75%; 480 annual units is 50%;
      1000 annual units is over 100% and the bar stops at 100%. */
  lemma UtilizationExamples()
    ensures UtilizationOf(Allocated(30.0, Monthly, Some(2))) == 75.0
    ensures UtilizationOf(Allocated(480.0, Annual, None)) == 50.0
    ensures UtilizationOf(Allocated(1000.0, Annual, None)) == 100000.0 / 960.0
    ensures OverAllocated(UtilizationOf(Allocated(1000.0, Annual, None)))
    ensures BarWidth(UtilizationOf(Allocated(1000.0, Annual, None))) == 100.0
    ensures UtilizationOf(Allocated(10.0, Monthly, None)) == 50.0
    ensures UtilizationOf(Allocated(10.0, Monthly, Some(0))) == 50.0
  {
  }
}
