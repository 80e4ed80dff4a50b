/**
 * The baseline_cohort table (db/schemas/baseline_cohort.py): one row per
 * participant of the baseline table, filled in by a sequence of UPDATE
 * statements. Each statement is modelled as an in-place pass over the rows of
 * an array; the table the passes build is proved equal to a declarative
 * description of each participant's row.
 */
module BaselineCohort {
  import opened Common
  import opened Extraction
  import opened GpRegistrations

  /** The baseline fields copied to a column fN, in the order of their UPDATE statements. */
  const CopiedFields: seq<int> := [31, 34, 52, 53, 21003, 189, 21001, 50, 21002, 94, 95, 20116, 20117, 21000, 54]

  const SexField := 31
  const YearOfBirthField := 34
  const MonthOfBirthField := 52
  const CentreField := 54
  const DeathDateField := 40000

  /** Assessment centres in Scotland (Glasgow, Edinburgh) and in Wales (Cardiff, Swansea, Wrexham). */
  const ScottishCentres: set<int> := {11005, 11004}
  const WelshCentres: set<int> := {11003, 11022, 11023}

  /** A gp_prescriptions row; only its eid is read here. */
  datatype GpPrescriptionRow = GpPrescriptionRow(eid: int, dataProvider: int)

  /**
   * A row of baseline_cohort. `fields` holds the fN columns that are not NULL;
   * a column absent from the map is NULL.
   */
  datatype CohortRow = CohortRow(
    eid: int,
    fields: map<int, string>,
    country: Option<char>,
    dob: Option<Date>,
    deathDate: Option<Date>,
    gpEhr: Option<int>,
    singleReg: int,
    deductDate: Option<Date>)

  /** The row CREATE TABLE ... SELECT DISTINCT(eid) and the ALTER statements leave. */
  function EmptyRow(eid: int): CohortRow
  {
    CohortRow(eid, map[], None, None, None, None, 0, None)
  }

  function BaselineEid(): BaselineRow -> int { (b: BaselineRow) => b.eid }

  /** The value the UPDATE for field f copies: the first row of f at instance 0, array index 0. */
  function FirstVisitValue(baseline: seq<BaselineRow>, eid: int, f: int): (v: Option<string>)
    ensures v.Some? <==> exists b :: b in baseline && b.eid == eid && b.field == f && b.i == 0 && b.n == 0
    ensures v.Some? ==> exists b :: b in baseline && b.eid == eid && b.field == f && b.i == 0 && b.n == 0 && b.value == v.value
  {
    if |baseline| == 0 then None
    else
      var b := baseline[0];
      if b.eid == eid && b.field == f && b.i == 0 && b.n == 0 then Some(b.value)
      else FirstVisitValue(baseline[1..], eid, f)
  }

  /**
   * The fN columns after the UPDATE statements for the fields fs: exactly the
   * fields of fs with a first-visit value, each holding that value.
   */
  function CopiedValues(baseline: seq<BaselineRow>, eid: int, fs: seq<int>): (m: map<int, string>)
    ensures forall f :: f in m <==> f in fs && FirstVisitValue(baseline, eid, f).Some?
    ensures forall f :: f in m ==> FirstVisitValue(baseline, eid, f) == Some(m[f])
  {
    if |fs| == 0 then map[]
    else
      var m := CopiedValues(baseline, eid, fs[..|fs| - 1]);
      var f := fs[|fs| - 1];
      assert forall g :: g in fs <==> g in fs[..|fs| - 1] || g == f;
      match FirstVisitValue(baseline, eid, f)
      case Some(v) => m[f := v]
      case None => m
  }

  /** The country code the centre column selects; NULL and non-numeric text give 'E'. */
  function Country(centre: Option<string>): (c: char)
    ensures c == 'E' || c == 'S' || c == 'W'
    ensures centre.None? ==> c == 'E'
  {
    if centre.Some? && SqlNumber(centre.value) in ScottishCentres then 'S'
    else if centre.Some? && SqlNumber(centre.value) in WelshCentres then 'W'
    else 'E'
  }

  function Column(fields: map<int, string>, f: int): Option<string>
  {
    if f in fields then Some(fields[f]) else None
  }

  /** STR_TO_DATE(CONCAT(f34, '-', f52, '-', 1), '%Y-%m-%d'); NULL when either column is. */
  function DateOfBirth(fields: map<int, string>): (d: Option<Date>)
    ensures d.Some? ==> YearOfBirthField in fields && MonthOfBirthField in fields && ValidDate(d.value)
    ensures d.Some? ==> d.value.day == 1
  {
    if YearOfBirthField in fields && MonthOfBirthField in fields then
      var head := fields[YearOfBirthField] + "-" + fields[MonthOfBirthField];
      SplitLast(head, '-', "1");
      assert head + "-" + "1" == head + ['-'] + "1";
      ParseIsoDate(head + "-" + "1")
    else None
  }

  /** The f40000 column: the first-visit death date, NULL when absent or not a date. */
  function DeathDate(baseline: seq<BaselineRow>, eid: int): Option<Date>
  {
    match FirstVisitValue(baseline, eid, DeathDateField)
    case Some(v) => ParseIsoDate(v)
    case None => None
  }

  predicate HasPrimaryCare(regs: seq<GpRegistration>, clinical: seq<GpClinicalRow>, scripts: seq<GpPrescriptionRow>, eid: int)
  {
    (exists g :: g in regs && g.eid == eid) ||
    (exists n :: n in clinical && n.eid == eid) ||
    (exists p :: p in scripts && p.eid == eid)
  }

  function RegistrationOf(eid: int): GpRegistration -> bool { (g: GpRegistration) => g.eid == eid }

  /** The registrations of one participant. */
  function RegistrationsOf(regs: seq<GpRegistration>, eid: int): (rs: seq<GpRegistration>)
    ensures forall g :: g in rs <==> g in regs && g.eid == eid
  {
    FilterMembershipAll(regs, RegistrationOf(eid));
    Filter(regs, RegistrationOf(eid))
  }

  lemma FilterMembershipAll<T>(s: seq<T>, p: T -> bool)
    ensures forall x :: x in Filter(s, p) <==> x in s && p(x)
  {
    forall x ensures x in Filter(s, p) <==> x in s && p(x) {
      FilterMembership(s, p, x);
    }
  }

  /** The declarative row of one participant, as all statements together leave it. */
  function SpecRow(baseline: seq<BaselineRow>, regs: seq<GpRegistration>, clinical: seq<GpClinicalRow>, scripts: seq<GpPrescriptionRow>, eid: int): CohortRow
  {
    var fields := CopiedValues(baseline, eid, CopiedFields);
    var own := RegistrationsOf(regs, eid);
    CohortRow(
      eid,
      fields,
      Some(Country(Column(fields, CentreField))),
      DateOfBirth(fields),
      DeathDate(baseline, eid),
      Some(if HasPrimaryCare(regs, clinical, scripts, eid) then 1 else 0),
      if |own| == 1 then 1 else 0,
      if |own| == 1 then own[0].deductDate else None)
  }

  function SpecRowOf(baseline: seq<BaselineRow>, regs: seq<GpRegistration>, clinical: seq<GpClinicalRow>, scripts: seq<GpPrescriptionRow>): int -> CohortRow
  {
    (eid: int) => SpecRow(baseline, regs, clinical, scripts, eid)
  }

  /** The whole table: the distinct participants of baseline, each with its row. */
  function Cohort(baseline: seq<BaselineRow>, regs: seq<GpRegistration>, clinical: seq<GpClinicalRow>, scripts: seq<GpPrescriptionRow>): seq<CohortRow>
  {
    Map(DistinctKeys(baseline, BaselineEid()), SpecRowOf(baseline, regs, clinical, scripts))
  }

  // ---------------------------------------------------------------------------
  // The statements, one row at a time

  function CopyField(baseline: seq<BaselineRow>, f: int): CohortRow -> CohortRow
  {
    (r: CohortRow) => match FirstVisitValue(baseline, r.eid, f)
         case Some(v) => r.(fields := r.fields[f := v])
         case None => r
  }

  function SetCountry(): CohortRow -> CohortRow
  {
    (r: CohortRow) => r.(country := Some(Country(Column(r.fields, CentreField))))
  }

  function SetDeathDate(baseline: seq<BaselineRow>): CohortRow -> CohortRow
  {
    (r: CohortRow) => match FirstVisitValue(baseline, r.eid, DeathDateField)
         case Some(v) => r.(deathDate := ParseIsoDate(v))
         case None => r
  }

  function SetDob(): CohortRow -> CohortRow
  {
    (r: CohortRow) => r.(dob := DateOfBirth(r.fields))
  }

  function MarkGpEhr(eids: set<int>): CohortRow -> CohortRow
  {
    (r: CohortRow) => if r.eid in eids then r.(gpEhr := Some(1)) else r
  }

  function DefaultGpEhr(): CohortRow -> CohortRow
  {
    (r: CohortRow) => if r.gpEhr.None? then r.(gpEhr := Some(0)) else r
  }

  /** The join with temp_single_reg: participants with exactly one registration. */
  function MarkSingleReg(regs: seq<GpRegistration>): CohortRow -> CohortRow
  {
    (r: CohortRow) => var own := RegistrationsOf(regs, r.eid);
         if |own| == 1 then r.(singleReg := 1, deductDate := own[0].deductDate) else r
  }

  /** One UPDATE without a row limit: every row of the table passes through `update` once. */
  method Apply(table: array<CohortRow>, update: CohortRow -> CohortRow)
    modifies table
    ensures table[..] == Map(old(table[..]), update)
  {
    for k := 0 to table.Length
      invariant forall j :: 0 <= j < k ==> table[j] == update(old(table[j]))
      invariant forall j :: k <= j < table.Length ==> table[j] == old(table[j])
    {
      table[k] := update(table[k]);
    }
  }

  /** The fifteen UPDATE statements that copy a first-visit value into a column fN. */
  method CopyFields(table: array<CohortRow>, baseline: seq<BaselineRow>)
    modifies table
    requires forall j :: 0 <= j < table.Length ==> table[j].fields == map[]
    ensures forall j :: 0 <= j < table.Length ==>
      table[j] == old(table[j]).(fields := CopiedValues(baseline, old(table[j]).eid, CopiedFields))
  {
    for i := 0 to |CopiedFields|
      invariant forall j :: 0 <= j < table.Length ==>
        table[j] == old(table[j]).(fields := CopiedValues(baseline, old(table[j]).eid, CopiedFields[..i]))
    {
      Apply(table, CopyField(baseline, CopiedFields[i]));
      assert CopiedFields[..i + 1][..i] == CopiedFields[..i];
    }
    assert CopiedFields[..|CopiedFields|] == CopiedFields;
  }

  /** The statements that derive country, f40000 and dob. */
  method FillDerived(table: array<CohortRow>, baseline: seq<BaselineRow>)
    modifies table
    requires forall j :: 0 <= j < table.Length ==> table[j].deathDate.None?
    ensures forall j :: 0 <= j < table.Length ==>
      var r := old(table[j]);
      table[j] == r.(country := Some(Country(Column(r.fields, CentreField))),
                     deathDate := DeathDate(baseline, r.eid), dob := DateOfBirth(r.fields))
  {
    Apply(table, SetCountry());
    Apply(table, SetDeathDate(baseline));
    Apply(table, SetDob());
  }

  /** The gp_ehr statements and the join with temp_single_reg. */
  method FillPrimaryCare(table: array<CohortRow>, regs: seq<GpRegistration>, clinical: seq<GpClinicalRow>, scripts: seq<GpPrescriptionRow>)
    modifies table
    requires forall j :: 0 <= j < table.Length ==> table[j].gpEhr.None? && table[j].singleReg == 0 && table[j].deductDate.None?
    ensures forall j :: 0 <= j < table.Length ==>
      var r := old(table[j]);
      var own := RegistrationsOf(regs, r.eid);
      table[j] == r.(gpEhr := Some(if HasPrimaryCare(regs, clinical, scripts, r.eid) then 1 else 0),
                     singleReg := if |own| == 1 then 1 else 0,
                     deductDate := if |own| == 1 then own[0].deductDate else None)
  {
    ghost var t0 := table[..];
    var fromRegs, fromClinical, fromScripts :=
      MarkGpEhr(set g | g in regs :: g.eid), MarkGpEhr(set n | n in clinical :: n.eid), MarkGpEhr(set p | p in scripts :: p.eid);
    Apply(table, fromRegs);
    Apply(table, fromClinical);
    Apply(table, fromScripts);
    Apply(table, DefaultGpEhr());
    Apply(table, MarkSingleReg(regs));
    forall j | 0 <= j < table.Length
      ensures table[j] == MarkSingleReg(regs)(DefaultGpEhr()(fromScripts(fromClinical(fromRegs(t0[j])))))
    {
      assert table[j] == table[..][j];
    }
    forall j | 0 <= j < table.Length
      ensures var r := old(table[j]);
        table[j] == r.(gpEhr := Some(if HasPrimaryCare(regs, clinical, scripts, r.eid) then 1 else 0),
                       singleReg := if |RegistrationsOf(regs, r.eid)| == 1 then 1 else 0,
                       deductDate := if |RegistrationsOf(regs, r.eid)| == 1 then RegistrationsOf(regs, r.eid)[0].deductDate else None)
    {
      assert t0[j] == old(table[j]);
      PrimaryCareSteps(regs, clinical, scripts, t0[j]);
    }
  }

  /** The five UPDATEs of one row, composed, for a row whose primary-care columns are still unset. */
  lemma PrimaryCareSteps(regs: seq<GpRegistration>, clinical: seq<GpClinicalRow>, scripts: seq<GpPrescriptionRow>, r: CohortRow)
    requires r.gpEhr.None? && r.singleReg == 0 && r.deductDate.None?
    ensures var own := RegistrationsOf(regs, r.eid);
      MarkSingleReg(regs)(DefaultGpEhr()(MarkGpEhr(set p | p in scripts :: p.eid)(MarkGpEhr(set n | n in clinical :: n.eid)(
        MarkGpEhr(set g | g in regs :: g.eid)(r))))) ==
      r.(gpEhr := Some(if HasPrimaryCare(regs, clinical, scripts, r.eid) then 1 else 0),
         singleReg := if |own| == 1 then 1 else 0,
         deductDate := if |own| == 1 then own[0].deductDate else None)
  {
    var inRegs := r.eid in (set g | g in regs :: g.eid);
    var inClinical := r.eid in (set n | n in clinical :: n.eid);
    var inScripts := r.eid in (set p | p in scripts :: p.eid);
    assert HasPrimaryCare(regs, clinical, scripts, r.eid) <==> inRegs || inClinical || inScripts;
  }

  /** SCHEMA_BASELINE_COHORT: create the table and run its statements in order. */
  method Build(baseline: seq<BaselineRow>, regs: seq<GpRegistration>, clinical: seq<GpClinicalRow>, scripts: seq<GpPrescriptionRow>)
    returns (table: array<CohortRow>)
    ensures table[..] == Cohort(baseline, regs, clinical, scripts)
  {
    var eids := DistinctKeys(baseline, BaselineEid());
    table := new CohortRow[|eids|](k requires 0 <= k < |eids| => EmptyRow(eids[k]));
    CopyFields(table, baseline);
    FillDerived(table, baseline);
    FillPrimaryCare(table, regs, clinical, scripts);
  }

  // ---------------------------------------------------------------------------
  // What the table promises

  function RowEid(): CohortRow -> int { (r: CohortRow) => r.eid }

  /** One row per participant: the eids are distinct and are exactly those of baseline. */
  lemma CohortOnePerParticipant(baseline: seq<BaselineRow>, regs: seq<GpRegistration>, clinical: seq<GpClinicalRow>, scripts: seq<GpPrescriptionRow>)
    ensures var es := Map(Cohort(baseline, regs, clinical, scripts), RowEid());
      (forall i, j :: 0 <= i < j < |es| ==> es[i] != es[j]) &&
      (forall e :: e in es <==> exists b :: b in baseline && b.eid == e)
  {
    var eids := DistinctKeys(baseline, BaselineEid());
    var es := Map(Cohort(baseline, regs, clinical, scripts), RowEid());
    assert es == eids;
  }

  /** The centre column decides the country: Scotland, Wales, or England otherwise. */
  lemma CountryOfCentre(code: nat)
    ensures Country(Some(Show(code))) == (if code in ScottishCentres then 'S' else if code in WelshCentres then 'W' else 'E')
  {
    ParseShow(code);
  }

  /** A recorded year y and month m give a date of birth on the first of that month. */
  lemma DateOfBirthFirstOfMonth(fields: map<int, string>, y: nat, m: nat)
    requires Column(fields, YearOfBirthField) == Some(Show(y))
    requires Column(fields, MonthOfBirthField) == Some(Show(m))
    requires 1 <= m <= 12
    ensures DateOfBirth(fields) == Some(Date(y, m, 1))
  {
    ShowValue(y);
    ShowValue(m);
    assert DigitsValue("1") == 1;
    ParseIsoDateParts(Show(y), Show(m), "1");
  }

  /**
   * gp_ehr is 1 exactly for participants found in a primary-care table and 0
   * for everyone else; gp_ehr_single_reg is 1 exactly for participants with
   * one registration, whose deduction date is then copied.
   */
  lemma PrimaryCareFlags(baseline: seq<BaselineRow>, regs: seq<GpRegistration>, clinical: seq<GpClinicalRow>, scripts: seq<GpPrescriptionRow>, r: CohortRow)
    requires r in Cohort(baseline, regs, clinical, scripts)
    ensures r.gpEhr == Some(1) <==> HasPrimaryCare(regs, clinical, scripts, r.eid)
    ensures r.gpEhr == Some(0) <==> !HasPrimaryCare(regs, clinical, scripts, r.eid)
    ensures r.singleReg == 1 <==> |RegistrationsOf(regs, r.eid)| == 1
    ensures r.singleReg == 1 ==> exists g :: g in regs && g.eid == r.eid && r.deductDate == g.deductDate
    ensures r.singleReg != 1 ==> r.deductDate.None? && r.singleReg == 0
  {
    var eids := DistinctKeys(baseline, BaselineEid());
    var i :| 0 <= i < |eids| && Cohort(baseline, regs, clinical, scripts)[i] == r;
    assert r == SpecRow(baseline, regs, clinical, scripts, eids[i]);
    var own := RegistrationsOf(regs, r.eid);
    if |own| == 1 {
      assert own[0] in own;
    }
  }

  /** Every fN column holds the participant's first-visit value of that field, and only copied fields appear. */
  lemma CohortColumns(baseline: seq<BaselineRow>, regs: seq<GpRegistration>, clinical: seq<GpClinicalRow>, scripts: seq<GpPrescriptionRow>, r: CohortRow, f: int)
    requires r in Cohort(baseline, regs, clinical, scripts)
    ensures f in r.fields <==> f in CopiedFields && exists b :: b in baseline && b.eid == r.eid && b.field == f && b.i == 0 && b.n == 0
    ensures f in r.fields ==> exists b :: b in baseline && b.eid == r.eid && b.field == f && b.i == 0 && b.n == 0 && b.value == r.fields[f]
    ensures r.dob.Some? ==> r.dob.value.day == 1 && ValidDate(r.dob.value)
  {
    var eids := DistinctKeys(baseline, BaselineEid());
    var i :| 0 <= i < |eids| && Cohort(baseline, regs, clinical, scripts)[i] == r;
    assert r == SpecRow(baseline, regs, clinical, scripts, eids[i]);
  }
}
