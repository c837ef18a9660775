/**
 * The edits a row reports upward. The table never changes a client itself: each
 * input normalises what was typed or picked and emits a change request that the
 * owner of the client list applies.
 */
module RowEdits {
  import opened Types

  /** The largest monthly figure kept when a client moves to monthly budgeting:
      20 hours for each of 12 months. */
  const MaxMonthlyHours: real := 240.0

  /** `onUnitsChange(id, units, mode, months?)`. */
  datatype UnitsChange = UnitsChange(id: string, units: real, mode: UnitsMode, months: Option<int>)

  /** `onStatusChange(id, status)`. */
  datatype StatusChange = StatusChange(id: string, status: ClientStatus)

  /** The allocation rules of the roster: units are never negative, annual units
      stay within 960, and a monthly month count, when given, lies in 1..12. */
  predicate ValidAllocation(units: real, mode: UnitsMode, months: Option<int>) {
    && units >= 0.0
    && (mode == Annual ==> units <= 960.0)
    && (mode == Monthly && months.Some? ==> 1 <= months.value <= 12)
  }

  predicate ValidClient(c: Client) {
    ValidAllocation(c.unitsUsed, c.unitsMode, c.monthsAssigned)
  }

  predicate ValidChange(u: UnitsChange) {
    ValidAllocation(u.units, u.mode, u.months)
  }

  /** `Math.max(0, parseFloat(text) || 0)`: unparsable and negative hours become 0. */
  function ClampHours(parsed: Option<real>): (r: real)
    ensures r >= 0.0
    ensures parsed.Some? && parsed.value >= 0.0 ==> r == parsed.value
    ensures parsed.None? || parsed.value <= 0.0 ==> r == 0.0
  {
    var v := if parsed.Some? && parsed.value != 0.0 then parsed.value else 0.0;
    if v < 0.0 then 0.0 else v
  }

  /** `Math.max(1, Math.min(12, parseInt(text) || 1))`: the month count is kept
      within 1..12; unparsable input and 0 become 1. */
  function ClampMonths(parsed: Option<int>): (r: int)
    ensures 1 <= r <= 12
    ensures parsed.Some? && 1 <= parsed.value <= 12 ==> r == parsed.value
    ensures parsed.Some? && parsed.value > 12 ==> r == 12
    ensures parsed.None? || parsed.value < 1 ==> r == 1
  {
    var v := if parsed.Some? && parsed.value != 0 then parsed.value else 1;
    var capped := if v < 12 then v else 12;
    if capped > 1 then capped else 1
  }

  /** `Math.max(0, Math.min(960, parseInt(text) || 0))`: annual units are kept
      within 0..960; unparsable input becomes 0. */
  function ClampAnnual(parsed: Option<int>): (r: int)
    ensures 0 <= r <= 960
    ensures parsed.Some? && 0 <= parsed.value <= 960 ==> r == parsed.value
    ensures parsed.Some? && parsed.value > 960 ==> r == 960
    ensures parsed.None? || parsed.value < 0 ==> r == 0
  {
    var v := if parsed.Some? && parsed.value != 0 then parsed.value else 0;
    var capped := if v < 960 then v else 960;
    if capped > 0 then capped else 0
  }

  /** Normalising a figure that is already normalised changes nothing, so what the
      inputs show back is a fixed point of their own clamping. */
  lemma ClampsIdempotent(h: Option<real>, m: Option<int>, a: Option<int>)
    ensures ClampHours(Some(ClampHours(h))) == ClampHours(h)
    ensures ClampMonths(Some(ClampMonths(m))) == ClampMonths(m)
    ensures ClampAnnual(Some(ClampAnnual(a))) == ClampAnnual(a)
  {
  }

  /** Picking a units mode: monthly keeps at most 240 units and starts at one month;
      annual keeps the units as they are and drops the month count. */
  function OnModeChange(c: Client, mode: UnitsMode): (u: UnitsChange)
    ensures u.id == c.id && u.mode == mode
    ensures mode == Monthly ==> u.months == Some(1) && u.units <= MaxMonthlyHours && u.units <= c.unitsUsed
    ensures mode == Monthly ==> (u.units == c.unitsUsed <==> c.unitsUsed <= MaxMonthlyHours)
    ensures mode == Monthly && c.unitsUsed > MaxMonthlyHours ==> u.units == MaxMonthlyHours
    ensures mode == Annual ==> u.units == c.unitsUsed && u.months == None
  {
    if mode == Monthly then
      UnitsChange(c.id, if c.unitsUsed < MaxMonthlyHours then c.unitsUsed else MaxMonthlyHours, mode, Some(1))
    else
      UnitsChange(c.id, c.unitsUsed, mode, None)
  }

  /** Typing monthly hours: the month count of the record is passed on unchanged. */
  function OnMonthlyHoursChange(c: Client, parsed: Option<real>): (u: UnitsChange)
    ensures u.id == c.id && u.mode == Monthly && u.months == c.monthsAssigned
    ensures u.units == ClampHours(parsed)
  {
    UnitsChange(c.id, ClampHours(parsed), Monthly, c.monthsAssigned)
  }

  /** Typing a month count: the units of the record are passed on unchanged. */
  function OnMonthsChange(c: Client, parsed: Option<int>): (u: UnitsChange)
    ensures u.id == c.id && u.mode == Monthly && u.units == c.unitsUsed
    ensures u.months == Some(ClampMonths(parsed))
  {
    UnitsChange(c.id, c.unitsUsed, Monthly, Some(ClampMonths(parsed)))
  }

  /** Typing annual units: no month count is passed. */
  function OnAnnualUnitsChange(c: Client, parsed: Option<int>): (u: UnitsChange)
    ensures u.id == c.id && u.mode == Annual && u.months == None
    ensures u.units == ClampAnnual(parsed) as real
  {
    UnitsChange(c.id, ClampAnnual(parsed) as real, Annual, None)
  }

  /** Annual edits always request a valid allocation, whatever was typed. */
  lemma AnnualEditValid(c: Client, parsed: Option<int>)
    ensures ValidChange(OnAnnualUnitsChange(c, parsed))
  {
  }

  /** Monthly hour edits request a valid allocation whenever the record's month count is valid. */
  lemma MonthlyHoursEditValid(c: Client, parsed: Option<real>)
    requires c.monthsAssigned.Some? ==> 1 <= c.monthsAssigned.value <= 12
    ensures ValidChange(OnMonthlyHoursChange(c, parsed))
  {
  }

  /** Month edits request a valid allocation whenever the record's units are not negative. */
  lemma MonthsEditValid(c: Client, parsed: Option<int>)
    requires c.unitsUsed >= 0.0
    ensures ValidChange(OnMonthsChange(c, parsed))
  {
  }

  /** A switch to monthly from a valid record is valid. A switch to annual keeps
      the units as they are, so it is valid exactly when they fit the annual 960. */
  lemma ModeChangeValid(c: Client)
    requires ValidClient(c)
    ensures ValidChange(OnModeChange(c, Monthly))
    ensures ValidChange(OnModeChange(c, Annual)) <==> c.unitsUsed <= 960.0
  {
  }

  /** The status picker: its option value read back as a status. */
  function OnStatusSelect(c: Client, value: string): (r: Option<StatusChange>)
    ensures r.Some? ==> r.value.id == c.id && Label(r.value.status) == value
  {
    match StatusOfLabel(value)
    case Some(s) => Some(StatusChange(c.id, s))
    case None => None
  }

  /** Every option the picker offers requests the status at that position. */
  lemma StatusSelectOptions(c: Client, k: int)
    requires 0 <= k < |StatusOptions()|
    ensures OnStatusSelect(c, StatusOptions()[k]) == Some(StatusChange(c.id, ClientStatuses[k]))
  {
    StatusOptionsDistinct();
  }

  /** Worked examples: -5 and 2000 typed as annual units become 0 and 960, and an
      annual client at 900 units switched to monthly is requested at 240 units, one month. */
  lemma EditExamples(c: Client)
    requires c.unitsMode == Annual && c.unitsUsed == 900.0
    ensures OnAnnualUnitsChange(c, Some(-5)).units == 0.0
    ensures OnAnnualUnitsChange(c, Some(2000)).units == 960.0
    ensures OnAnnualUnitsChange(c, None).units == 0.0
    ensures OnModeChange(c, Monthly) == UnitsChange(c.id, 240.0, Monthly, Some(1))
    ensures OnMonthsChange(c, Some(0)).months == Some(1)
  {
  }
}
