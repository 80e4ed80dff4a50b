/**
 * The gp_registrations table and its post-processing step
 * (db/schemas/gp_registrations.py).
 *
 * Registrations whose date is a placeholder in 1902 or 1903 are moved to
 * July 1 of the participant's year of birth (baseline field 34, instance 0).
 * The table is a fixed-size array updated in place, row by row, as the
 * multi-table UPDATE does.
 */
module GpRegistrations {
  import opened Common
  import opened Extraction

  /** One GP registration period. */
  datatype GpRegistration = GpRegistration(eid: int, dataProvider: int, regDate: Option<Date>, deductDate: Option<Date>)

  /** The field the birth year is read from. */
  const BirthYearField := 34

  /**
   * The baseline value the UPDATE joins a registration of `eid` with: the first
   * row of field 34 at instance 0. The statement tests `b.i = 0` twice and never
   * constrains the array index, so any array index is accepted.
   */
  function BirthYearValue(baseline: seq<BaselineRow>, eid: int): (v: Option<string>)
    ensures v.Some? <==> exists b :: b in baseline && b.eid == eid && b.field == BirthYearField && b.i == 0
    ensures v.Some? ==> exists b :: b in baseline && b.eid == eid && b.field == BirthYearField && b.i == 0 && b.value == v.value
  {
    if |baseline| == 0 then None
    else
      var b := baseline[0];
      if b.eid == eid && b.field == BirthYearField && b.i == 0 then Some(b.value)
      else BirthYearValue(baseline[1..], eid)
  }

  /** A registration date the UPDATE rewrites: a known date in 1902 or 1903. */
  predicate Placeholder(d: Option<Date>)
  {
    d.Some? && (d.value.year == 1902 || d.value.year == 1903)
  }

  /** The UPDATE applied to one registration. */
  function RepairRow(baseline: seq<BaselineRow>, g: GpRegistration): (r: GpRegistration)
    ensures r.eid == g.eid && r.dataProvider == g.dataProvider && r.deductDate == g.deductDate
    ensures !Placeholder(g.regDate) ==> r == g
  {
    if Placeholder(g.regDate) then
      match BirthYearValue(baseline, g.eid)
      case Some(v) => g.(regDate := ParseIsoDate(v + "-07-01"))
      case None => g
    else g
  }

  function Repair(baseline: seq<BaselineRow>): GpRegistration -> GpRegistration
  {
    g => RepairRow(baseline, g)
  }

  /** SCHEMA_GP_REGISTRATIONS_POST_PROCESS over the whole table, in place. */
  method PostProcess(regs: array<GpRegistration>, baseline: seq<BaselineRow>)
    modifies regs
    ensures regs[..] == Map(old(regs[..]), Repair(baseline))
  {
    for k := 0 to regs.Length
      invariant forall j :: 0 <= j < k ==> regs[j] == RepairRow(baseline, old(regs[j]))
      invariant forall j :: k <= j < regs.Length ==> regs[j] == old(regs[j])
    {
      regs[k] := RepairRow(baseline, regs[k]);
    }
  }

  /**
   * A placeholder registration of a participant whose recorded birth year is y
   * is dated July 1 of year y; the other columns are kept.
   */
  lemma RepairSetsJulyFirst(baseline: seq<BaselineRow>, g: GpRegistration, y: nat)
    requires Placeholder(g.regDate)
    requires BirthYearValue(baseline, g.eid) == Some(Show(y))
    ensures RepairRow(baseline, g) == g.(regDate := Some(Date(y, 7, 1)))
  {
    JulyFirstParses(y);
  }

  /** The text `{year}-07-01` reads as July 1 of that year. */
  lemma JulyFirstParses(y: nat)
    ensures ParseIsoDate(Show(y) + "-07-01") == Some(Date(y, 7, 1))
  {
    var m, d := "07", "01";
    ShowValue(y);
    assert DigitsValue(m) == 7 && DigitsValue(d) == 1;
    ParseIsoDateParts(Show(y), m, d);
    assert Show(y) + "-07-01" == Show(y) + "-" + m + "-" + d;
  }

  /** A participant with no birth-year record keeps every registration as it is. */
  lemma RepairKeepsOthers(baseline: seq<BaselineRow>, g: GpRegistration)
    requires forall b :: b in baseline && b.eid == g.eid && b.field == BirthYearField ==> b.i != 0
    ensures RepairRow(baseline, g) == g
  {
  }

  /** After the step, no registration of a participant with a valid birth year is left in 1902 or 1903. */
  lemma PostProcessClearsPlaceholders(baseline: seq<BaselineRow>, g: GpRegistration, y: nat)
    requires BirthYearValue(baseline, g.eid) == Some(Show(y))
    requires y != 1902 && y != 1903
    ensures !Placeholder(RepairRow(baseline, g).regDate)
  {
    if Placeholder(g.regDate) {
      RepairSetsJulyFirst(baseline, g, y);
    }
  }
}
