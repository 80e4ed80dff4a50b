/**
 * The SELECT statements of the UK Biobank database layer (db/ukbdb.py) read
 * as functions from the source tables to the rows of the `phenotypes` table
 * they produce.  Each join is evaluated as a nested loop (Common.InnerJoin,
 * Common.LeftJoin); a code list rendered as `REGEXP '^(c1|...|ck)'` is read
 * as "some listed code is a prefix", and `IN (...)` as list membership.
 */
module Extraction {
  import opened Common
  import opened PhenotypeModel

  // ---------------------------------------------------------------------------
  // Source tables (record shapes of the schema declarations)

  /** baseline: one UK Biobank value of field `field`, instance i, array index n. */
  datatype BaselineRow = BaselineRow(eid: int, field: int, i: int, n: int, value: string)
  /** hesin: one hospital episode. */
  datatype HesinRow = HesinRow(eid: int, insIndex: int, epistart: Option<Date>, admidate: Option<Date>)
  /** hesin_diag: one diagnosis of an episode, at level 1 (primary) or 2 (secondary). */
  datatype HesinDiagRow = HesinDiagRow(eid: int, insIndex: int, level: int, diagIcd10: string)
  /** hesin_oper: one procedure of an episode. */
  datatype HesinOperRow = HesinOperRow(eid: int, insIndex: int, level: int, opdate: Option<Date>, oper4: string)
  /** death: a participant's date of death. */
  datatype DeathRow = DeathRow(eid: int, dateOfDeath: Option<Date>)
  /** death_cause: one cause of death. */
  datatype DeathCauseRow = DeathCauseRow(eid: int, level: int, causeIcd10: string)
  /** gp_clinical: one primary-care clinical event. */
  datatype GpClinicalRow = GpClinicalRow(eid: int, eventdate: Option<Date>, readCode: string)

  datatype Sources = Sources(
    baseline: seq<BaselineRow>,
    hesin: seq<HesinRow>,
    hesinDiag: seq<HesinDiagRow>,
    hesinOper: seq<HesinOperRow>,
    death: seq<DeathRow>,
    deathCause: seq<DeathCauseRow>,
    gpClinical: seq<GpClinicalRow>)

  /** A row of the phenotypes table; its data_value is NULL on every modelled path. */
  datatype Event = Event(eid: int, phenotype: string, fieldId: int, fieldValue: string, eventdate: Option<Date>)

  /** MySQL's numeric reading of a text value: the integer it spells, 0 otherwise. */
  function SqlNumber(s: string): int
  {
    match ParseInt(s)
    case Ok(v) => v
    case Err(_) => 0
  }

  /** January 1 of a year (CONCAT(ROUND(y), '-01-01')). */
  function NewYear(year: int): Date { Date(year, 1, 1) }

  // ---------------------------------------------------------------------------
  // Prefix matching of code lists

  /** `s REGEXP '^(c1|...|ck)'`, read as: some listed code is a prefix of s. */
  predicate PrefixMatch(codes: seq<string>, s: string)
  {
    exists c :: c in codes && IsPrefix(c, s)
  }

  /** The alternatives of the pattern '^(' + "|".join(codes) + ')' as the code builds it. */
  function RegexAlternatives(codes: seq<string>): seq<string>
  {
    Split(Join(codes, "|"), '|')
  }

  /** The prefix test as written: some alternative of the built pattern is a prefix. */
  predicate RegexPrefixAsWritten(codes: seq<string>, s: string)
  {
    exists alt :: alt in RegexAlternatives(codes) && IsPrefix(alt, s)
  }

  /** As written, an empty code list builds '^()', whose empty alternative matches every text. */
  lemma RegexEmptyListMatchesAll(s: string)
    ensures RegexPrefixAsWritten([], s)
  {
    assert RegexAlternatives([]) == [""];
    assert IsPrefix("", s);
  }

  /** Corrected: an empty code list matches nothing. */
  lemma PrefixMatchEmptyList(s: string)
    ensures !PrefixMatch([], s)
  {
  }

  /** On a non-empty list of codes free of '|' the built pattern and the corrected test agree. */
  lemma RegexAgreesOnNonEmptyList(codes: seq<string>, s: string)
    requires |codes| >= 1
    requires forall i :: 0 <= i < |codes| ==> '|' !in codes[i]
    ensures RegexPrefixAsWritten(codes, s) <==> PrefixMatch(codes, s)
  {
    SplitJoin(codes, '|');
  }

  // ---------------------------------------------------------------------------
  // Baseline-field extraction (field value with a date, age or baseline qualifier)

  /** WHERE b1.value IN values AND b1.field = field. */
  function ValueSelector(field: int, values: seq<string>): BaselineRow -> bool
  {
    (b: BaselineRow) => b.field == field && b.value in values
  }

  /** The baseline rows a value extraction starts from. */
  function SelectedValues(src: Sources, field: int, values: seq<string>): seq<BaselineRow>
  {
    Filter(src.baseline, ValueSelector(field, values))
  }

  /** ON b2.eid = b1.eid AND b2.i = b1.i AND b2.n = b1.n AND b2.field = paired. */
  function SameSlot(paired: int): (BaselineRow, BaselineRow) -> bool
  {
    (b1: BaselineRow, b2: BaselineRow) => b2.eid == b1.eid && b2.i == b1.i && b2.n == b1.n && b2.field == paired
  }

  /** ON b2.eid = b1.eid AND b2.i = 0 AND b2.n = 0 AND b2.field = field. */
  function FirstVisit(field: int): (BaselineRow, BaselineRow) -> bool
  {
    (b1: BaselineRow, b2: BaselineRow) => b2.eid == b1.eid && b2.i == 0 && b2.n == 0 && b2.field == field
  }

  /** The eventdate of a date-qualified row: Jan 1 of the paired year when it is positive. */
  function YearDate(paired: Option<BaselineRow>): Option<Date>
  {
    if paired.Some? && SqlNumber(paired.value.value) > 0 then Some(NewYear(SqlNumber(paired.value.value)))
    else Some(Sentinel)
  }

  function YearRow(stem: string, field: int): (BaselineRow, Option<BaselineRow>) -> Event
  {
    (b1: BaselineRow, b2: Option<BaselineRow>) => Event(b1.eid, stem, field, b1.value, YearDate(b2))
  }

  /** extract_field_value_with_date_qualifier; `IN ()` for an empty list is refused by MySQL. */
  function DateQualifiedRows(src: Sources, stem: string, field: int, values: seq<string>, dateField: int): (r: Result<seq<Event>>)
    ensures r.Err? <==> |values| == 0
    ensures r.Err? ==> r.error == SqlError
  {
    if |values| == 0 then Err(SqlError)
    else Ok(LeftJoin(SelectedValues(src, field, values), src.baseline, SameSlot(dateField), YearRow(stem, field)))
  }

  /**
   * Each date-qualified row comes from a baseline row of the field holding a
   * listed value; it is dated Jan 1 of the positive year recorded at the same
   * (i, n), and 1900-01-01 when that year is not positive or absent.
   */
  lemma DateQualifiedMembership(src: Sources, stem: string, field: int, values: seq<string>, dateField: int, e: Event)
    requires |values| > 0
    ensures e in DateQualifiedRows(src, stem, field, values, dateField).value <==>
      exists b1 :: b1 in src.baseline && b1.field == field && b1.value in values &&
        e == Event(b1.eid, stem, field, b1.value, e.eventdate) &&
        ((exists b2 :: b2 in src.baseline && SameSlot(dateField)(b1, b2) && e.eventdate == YearDate(Some(b2))) ||
         ((forall b2 :: b2 in src.baseline ==> !SameSlot(dateField)(b1, b2)) && e.eventdate == Some(Sentinel)))
  {
    var sel := SelectedValues(src, field, values);
    LeftJoinMembership(sel, src.baseline, SameSlot(dateField), YearRow(stem, field), e);
    forall b1 ensures b1 in sel <==> b1 in src.baseline && b1.field == field && b1.value in values {
      FilterMembership(src.baseline, ValueSelector(field, values), b1);
    }
  }

  /** Date-qualified rows are never undated: Jan 1 of a positive year, or 1900-01-01. */
  lemma DateQualifiedDates(src: Sources, stem: string, field: int, values: seq<string>, dateField: int, e: Event)
    requires |values| > 0
    requires e in DateQualifiedRows(src, stem, field, values, dateField).value
    ensures e.eventdate.Some?
    ensures e.eventdate.value == Sentinel || (e.eventdate.value.year > 0 && e.eventdate.value.month == 1 && e.eventdate.value.day == 1)
    ensures e.fieldId == field && e.phenotype == stem && e.fieldValue in values
  {
    DateQualifiedMembership(src, stem, field, values, dateField, e);
  }

  /**
   * When no (eid, i, n) slot holds two values of the date field, the LEFT JOIN
   * yields exactly one row per selected baseline value.
   */
  lemma DateQualifiedOnePerValue(src: Sources, stem: string, field: int, values: seq<string>, dateField: int)
    requires |values| > 0
    requires forall i, j :: 0 <= i < j < |src.baseline| && src.baseline[i].field == dateField && src.baseline[j].field == dateField ==>
      src.baseline[i].eid != src.baseline[j].eid || src.baseline[i].i != src.baseline[j].i || src.baseline[i].n != src.baseline[j].n
    ensures |DateQualifiedRows(src, stem, field, values, dateField).value| == |SelectedValues(src, field, values)|
  {
    LeftJoinOnePerRow(SelectedValues(src, field, values), src.baseline, SameSlot(dateField), YearRow(stem, field));
  }

  /** The eventdate of an age-qualified row: Jan 1 of age + birth year when the age is positive. */
  function AgeDate(age: Option<BaselineRow>, birthYear: Option<BaselineRow>): Option<Date>
  {
    if age.Some? && SqlNumber(age.value.value) > 0 then
      (if birthYear.Some? then Some(NewYear(SqlNumber(age.value.value) + SqlNumber(birthYear.value.value))) else None)
    else Some(Sentinel)
  }

  function AgePair(b1: BaselineRow, b2: Option<BaselineRow>): (BaselineRow, Option<BaselineRow>) { (b1, b2) }

  function AgeSlot(ageField: int): ((BaselineRow, Option<BaselineRow>), BaselineRow) -> bool
  {
    (p: (BaselineRow, Option<BaselineRow>), b3: BaselineRow) => FirstVisit(34)(p.0, b3)
  }

  function AgeRow(stem: string, field: int): ((BaselineRow, Option<BaselineRow>), Option<BaselineRow>) -> Event
  {
    (p: (BaselineRow, Option<BaselineRow>), b3: Option<BaselineRow>) => Event(p.0.eid, stem, field, p.0.value, AgeDate(p.1, b3))
  }

  /** The selected values LEFT JOINed with the age field at the same (i, n). */
  function AgePairs(src: Sources, field: int, values: seq<string>, ageField: int): seq<(BaselineRow, Option<BaselineRow>)>
  {
    LeftJoin(SelectedValues(src, field, values), src.baseline, SameSlot(ageField), AgePair)
  }

  /** extract_field_value_with_age_qualifier's SELECT: a second LEFT JOIN adds the birth year (field 34). */
  function AgeQualifiedRows(src: Sources, stem: string, field: int, values: seq<string>, ageField: int): (r: Result<seq<Event>>)
    ensures r.Err? <==> |values| == 0
    ensures r.Err? ==> r.error == SqlError
  {
    if |values| == 0 then Err(SqlError)
    else Ok(LeftJoin(AgePairs(src, field, values, ageField), src.baseline, AgeSlot(ageField), AgeRow(stem, field)))
  }

  /**
   * An age-qualified row is dated Jan 1 of age + birth year when its age is
   * positive, 1900-01-01 when the age is not positive or absent, and NULL only
   * when a positive age has no birth year to add to.
   */
  lemma AgeQualifiedDates(src: Sources, stem: string, field: int, values: seq<string>, ageField: int, e: Event)
    requires |values| > 0
    requires e in AgeQualifiedRows(src, stem, field, values, ageField).value
    ensures e.fieldId == field && e.phenotype == stem && e.fieldValue in values
    ensures exists b1 :: b1 in src.baseline && b1.field == field && b1.value == e.fieldValue && b1.eid == e.eid
    ensures e.eventdate.None? ==> forall b3 :: b3 in src.baseline && b3.eid == e.eid && b3.i == 0 && b3.n == 0 ==> b3.field != 34
    ensures e.eventdate.Some? ==> e.eventdate.value == Sentinel || (e.eventdate.value.month == 1 && e.eventdate.value.day == 1)
    ensures exists b1, age, birthYear ::
      b1 in src.baseline && b1.eid == e.eid && b1.value == e.fieldValue &&
      LeftPartner(b1, src.baseline, SameSlot(ageField), age) &&
      LeftPartner(b1, src.baseline, FirstVisit(34), birthYear) &&
      e.eventdate == AgeDate(age, birthYear)
  {
    AgeQualifiedMembership(src, stem, field, values, ageField, e);
    var pairs := AgePairs(src, field, values, ageField);
    LeftJoinMembership(pairs, src.baseline, AgeSlot(ageField), AgeRow(stem, field), e);
    var p :| p in pairs && (
        (exists b3 :: b3 in src.baseline && AgeSlot(ageField)(p, b3) && e == AgeRow(stem, field)(p, Some(b3))) ||
        ((forall b3 :: b3 in src.baseline ==> !AgeSlot(ageField)(p, b3)) && e == AgeRow(stem, field)(p, None)));
    AgePairOrigin(src, field, values, ageField, p);
    if exists b3 :: b3 in src.baseline && AgeSlot(ageField)(p, b3) && e == AgeRow(stem, field)(p, Some(b3)) {
      var b3 :| b3 in src.baseline && AgeSlot(ageField)(p, b3) && e == AgeRow(stem, field)(p, Some(b3));
      assert e.eventdate == AgeDate(p.1, Some(b3));
    } else {
      assert e == AgeRow(stem, field)(p, None);
      forall b3 | b3 in src.baseline && b3.eid == e.eid && b3.i == 0 && b3.n == 0 ensures b3.field != 34 {
        assert e.eid == p.0.eid;
        assert !AgeSlot(ageField)(p, b3);
        assert AgeSlot(ageField)(p, b3) == FirstVisit(34)(p.0, b3);
        assert !FirstVisit(34)(p.0, b3);
      }
    }
  }

  /** The birth-year join sees the outer value row through the age pair. */
  lemma AgeSlotPartner(p: (BaselineRow, Option<BaselineRow>), bs: seq<BaselineRow>, ageField: int, y: Option<BaselineRow>)
    ensures LeftPartner(p, bs, AgeSlot(ageField), y) <==> LeftPartner(p.0, bs, FirstVisit(34), y)
  {
    assert forall b :: AgeSlot(ageField)(p, b) == FirstVisit(34)(p.0, b);
  }

  /**
   * The age-qualified rows are exactly: for each selected value row b1, each
   * age record at b1's (eid, i, n) (or NULL when there is none) and each
   * field-34 record of b1's participant at i = 0, n = 0 (or NULL), one row
   * dated AgeDate(age, birth year).
   */
  lemma AgeQualifiedMembership(src: Sources, stem: string, field: int, values: seq<string>, ageField: int, e: Event)
    requires |values| > 0
    ensures e in AgeQualifiedRows(src, stem, field, values, ageField).value <==>
      exists b1, age, birthYear :: b1 in src.baseline && b1.field == field && b1.value in values &&
        LeftPartner(b1, src.baseline, SameSlot(ageField), age) &&
        LeftPartner(b1, src.baseline, FirstVisit(34), birthYear) &&
        e == Event(b1.eid, stem, field, b1.value, AgeDate(age, birthYear))
  {
    var sel := SelectedValues(src, field, values);
    var pairs := AgePairs(src, field, values, ageField);
    var rows := AgeQualifiedRows(src, stem, field, values, ageField).value;
    LeftJoinPartners(pairs, src.baseline, AgeSlot(ageField), AgeRow(stem, field), e);
    if e in rows {
      var p, y :| p in pairs && LeftPartner(p, src.baseline, AgeSlot(ageField), y) && e == AgeRow(stem, field)(p, y);
      LeftJoinPartners(sel, src.baseline, SameSlot(ageField), AgePair, p);
      var b1, a :| b1 in sel && LeftPartner(b1, src.baseline, SameSlot(ageField), a) && p == AgePair(b1, a);
      FilterMembership(src.baseline, ValueSelector(field, values), b1);
      AgeSlotPartner(p, src.baseline, ageField, y);
      assert e == Event(b1.eid, stem, field, b1.value, AgeDate(a, y));
    }
    if exists b1, age, birthYear :: b1 in src.baseline && b1.field == field && b1.value in values &&
        LeftPartner(b1, src.baseline, SameSlot(ageField), age) &&
        LeftPartner(b1, src.baseline, FirstVisit(34), birthYear) &&
        e == Event(b1.eid, stem, field, b1.value, AgeDate(age, birthYear)) {
      var b1, a, y :| b1 in src.baseline && b1.field == field && b1.value in values &&
        LeftPartner(b1, src.baseline, SameSlot(ageField), a) &&
        LeftPartner(b1, src.baseline, FirstVisit(34), y) &&
        e == Event(b1.eid, stem, field, b1.value, AgeDate(a, y));
      FilterMembership(src.baseline, ValueSelector(field, values), b1);
      var p := AgePair(b1, a);
      LeftJoinPartners(sel, src.baseline, SameSlot(ageField), AgePair, p);
      AgeSlotPartner(p, src.baseline, ageField, y);
      assert e == AgeRow(stem, field)(p, y);
    }
  }

  /** Every selected value row yields an age-qualified row, one per pair of join partners. */
  lemma AgeQualifiedComplete(src: Sources, stem: string, field: int, values: seq<string>, ageField: int, b1: BaselineRow)
    requires |values| > 0
    requires b1 in src.baseline && b1.field == field && b1.value in values
    ensures forall age, birthYear ::
      LeftPartner(b1, src.baseline, SameSlot(ageField), age) && LeftPartner(b1, src.baseline, FirstVisit(34), birthYear) ==>
        Event(b1.eid, stem, field, b1.value, AgeDate(age, birthYear)) in AgeQualifiedRows(src, stem, field, values, ageField).value
    ensures exists e :: e in AgeQualifiedRows(src, stem, field, values, ageField).value && e.eid == b1.eid && e.fieldValue == b1.value
  {
    forall age, birthYear |
      LeftPartner(b1, src.baseline, SameSlot(ageField), age) && LeftPartner(b1, src.baseline, FirstVisit(34), birthYear)
      ensures Event(b1.eid, stem, field, b1.value, AgeDate(age, birthYear)) in AgeQualifiedRows(src, stem, field, values, ageField).value
    {
      AgeQualifiedMembership(src, stem, field, values, ageField, Event(b1.eid, stem, field, b1.value, AgeDate(age, birthYear)));
    }
    LeftPartnerExists(b1, src.baseline, SameSlot(ageField));
    LeftPartnerExists(b1, src.baseline, FirstVisit(34));
    var age :| LeftPartner(b1, src.baseline, SameSlot(ageField), age);
    var birthYear :| LeftPartner(b1, src.baseline, FirstVisit(34), birthYear);
    assert Event(b1.eid, stem, field, b1.value, AgeDate(age, birthYear)) in AgeQualifiedRows(src, stem, field, values, ageField).value;
  }

  /** Each age pair starts from a selected baseline value. */
  lemma AgePairOrigin(src: Sources, field: int, values: seq<string>, ageField: int, p: (BaselineRow, Option<BaselineRow>))
    requires p in AgePairs(src, field, values, ageField)
    ensures p.0 in src.baseline && p.0.field == field && p.0.value in values
  {
    var sel := SelectedValues(src, field, values);
    LeftJoinMembership(sel, src.baseline, SameSlot(ageField), AgePair, p);
    var b1 :| b1 in sel && (
        (exists b2 :: b2 in src.baseline && SameSlot(ageField)(b1, b2) && p == AgePair(b1, Some(b2))) ||
        ((forall b2 :: b2 in src.baseline ==> !SameSlot(ageField)(b1, b2)) && p == AgePair(b1, None)));
    FilterMembership(src.baseline, ValueSelector(field, values), b1);
  }

  /**
   * The joined row's value read as an ISO date, NULL when nothing joined.  The
   * baseline-qualified extractor applies STR_TO_DATE; the cancer-registry one
   * selects the text as it is and leaves the conversion to the target column.
   */
  function JoinedDate(joined: Option<BaselineRow>): Option<Date>
  {
    if joined.Some? then ParseIsoDate(joined.value.value) else None
  }

  function VisitRow(stem: string, field: int): (BaselineRow, Option<BaselineRow>) -> Event
  {
    (b1: BaselineRow, b2: Option<BaselineRow>) => Event(b1.eid, stem, field, b1.value, JoinedDate(b2))
  }

  /** extract_field_value_with_baseline_qualifier's SELECT. */
  function BaselineQualifiedRows(src: Sources, stem: string, field: int, values: seq<string>): (r: Result<seq<Event>>)
    ensures r.Err? <==> |values| == 0
    ensures r.Err? ==> r.error == SqlError
  {
    if |values| == 0 then Err(SqlError)
    else Ok(LeftJoin(SelectedValues(src, field, values), src.baseline, FirstVisit(53), VisitRow(stem, field)))
  }

  /**
   * The baseline-qualified rows are exactly: for each selected value row b1,
   * one row per field-53 record of b1's participant at i = 0, n = 0, dated by
   * that record, or one undated row when the participant has none.
   */
  lemma BaselineQualifiedMembership(src: Sources, stem: string, field: int, values: seq<string>, e: Event)
    requires |values| > 0
    ensures e in BaselineQualifiedRows(src, stem, field, values).value <==>
      exists b1, visit :: b1 in src.baseline && b1.field == field && b1.value in values &&
        LeftPartner(b1, src.baseline, FirstVisit(53), visit) &&
        e == Event(b1.eid, stem, field, b1.value, JoinedDate(visit))
  {
    var sel := SelectedValues(src, field, values);
    LeftJoinPartners(sel, src.baseline, FirstVisit(53), VisitRow(stem, field), e);
    forall b1 ensures b1 in sel <==> b1 in src.baseline && b1.field == field && b1.value in values {
      FilterMembership(src.baseline, ValueSelector(field, values), b1);
    }
  }

  /** Every selected value row yields a baseline-qualified row for each of its join partners. */
  lemma BaselineQualifiedComplete(src: Sources, stem: string, field: int, values: seq<string>, b1: BaselineRow)
    requires |values| > 0
    requires b1 in src.baseline && b1.field == field && b1.value in values
    ensures forall b2 :: b2 in src.baseline && b2.eid == b1.eid && b2.field == 53 && b2.i == 0 && b2.n == 0 ==>
      Event(b1.eid, stem, field, b1.value, ParseIsoDate(b2.value)) in BaselineQualifiedRows(src, stem, field, values).value
    ensures (forall b2 :: b2 in src.baseline && b2.eid == b1.eid && b2.i == 0 && b2.n == 0 ==> b2.field != 53) ==>
      Event(b1.eid, stem, field, b1.value, None) in BaselineQualifiedRows(src, stem, field, values).value
  {
    forall b2 | b2 in src.baseline && b2.eid == b1.eid && b2.field == 53 && b2.i == 0 && b2.n == 0
      ensures Event(b1.eid, stem, field, b1.value, ParseIsoDate(b2.value)) in BaselineQualifiedRows(src, stem, field, values).value
    {
      assert LeftPartner(b1, src.baseline, FirstVisit(53), Some(b2));
      BaselineQualifiedMembership(src, stem, field, values, Event(b1.eid, stem, field, b1.value, ParseIsoDate(b2.value)));
    }
    if forall b2 :: b2 in src.baseline && b2.eid == b1.eid && b2.i == 0 && b2.n == 0 ==> b2.field != 53 {
      assert LeftPartner(b1, src.baseline, FirstVisit(53), None);
      BaselineQualifiedMembership(src, stem, field, values, Event(b1.eid, stem, field, b1.value, None));
    }
  }

  /** A baseline-qualified row is dated by a field-53 record of the same participant at i = 0, n = 0, or NULL when there is none. */
  lemma BaselineQualifiedDates(src: Sources, stem: string, field: int, values: seq<string>, e: Event)
    requires |values| > 0
    requires e in BaselineQualifiedRows(src, stem, field, values).value
    ensures e.fieldId == field && e.phenotype == stem && e.fieldValue in values
    ensures e.eventdate.Some? ==>
      exists b2 :: b2 in src.baseline && b2.eid == e.eid && b2.field == 53 && b2.i == 0 && b2.n == 0 &&
        e.eventdate == ParseIsoDate(b2.value)
    ensures e.eventdate.None? ==>
      (forall b2 :: b2 in src.baseline && b2.eid == e.eid && b2.i == 0 && b2.n == 0 ==> b2.field != 53) ||
      (exists b2 :: b2 in src.baseline && b2.eid == e.eid && b2.field == 53 && b2.i == 0 && b2.n == 0 &&
        ParseIsoDate(b2.value).None?)
  {
    var sel := SelectedValues(src, field, values);
    LeftJoinMembership(sel, src.baseline, FirstVisit(53), VisitRow(stem, field), e);
    var b1 :| b1 in sel && (
        (exists b2 :: b2 in src.baseline && FirstVisit(53)(b1, b2) && e == VisitRow(stem, field)(b1, Some(b2))) ||
        ((forall b2 :: b2 in src.baseline ==> !FirstVisit(53)(b1, b2)) && e == VisitRow(stem, field)(b1, None)));
    FilterMembership(src.baseline, ValueSelector(field, values), b1);
  }

  // ---------------------------------------------------------------------------
  // Cancer registry (fields 40006 / 40005)

  function CancerSelector(codes: seq<string>): BaselineRow -> bool
  {
    (b: BaselineRow) => b.field == 40006 && PrefixMatch(codes, b.value)
  }

  /** A cancer-registry row; the field-40005 text is taken to be an ISO date. */
  function CancerRow(stem: string): (BaselineRow, Option<BaselineRow>) -> Event
  {
    (b1: BaselineRow, b2: Option<BaselineRow>) => Event(b1.eid, stem, 40006, b1.value, JoinedDate(b2))
  }

  /** extract_cancer_registry_data's SELECT: histology codes by prefix, dated by field 40005 at the same (i, n). */
  function CancerRegistryRows(src: Sources, stem: string, codes: seq<string>): seq<Event>
  {
    LeftJoin(Filter(src.baseline, CancerSelector(codes)), src.baseline, SameSlot(40005), CancerRow(stem))
  }

  /**
   * The cancer-registry rows are exactly: for each field-40006 value matching
   * a code prefix, one row per field-40005 record at the same (eid, i, n),
   * dated by that record, or one undated row when there is none.
   */
  lemma CancerRegistryMembership(src: Sources, stem: string, codes: seq<string>, e: Event)
    ensures e in CancerRegistryRows(src, stem, codes) <==>
      exists b1, diagnosed :: b1 in src.baseline && b1.field == 40006 && PrefixMatch(codes, b1.value) &&
        LeftPartner(b1, src.baseline, SameSlot(40005), diagnosed) &&
        e == Event(b1.eid, stem, 40006, b1.value, JoinedDate(diagnosed))
    ensures e in CancerRegistryRows(src, stem, codes) ==>
      e.fieldId == 40006 && e.phenotype == stem && PrefixMatch(codes, e.fieldValue)
    ensures e in CancerRegistryRows(src, stem, codes) ==>
      exists b1 :: b1 in src.baseline && b1.field == 40006 && b1.value == e.fieldValue && b1.eid == e.eid &&
        (e.eventdate.Some? ==>
          exists b2 :: b2 in src.baseline && b2.eid == e.eid && b2.i == b1.i && b2.n == b1.n && b2.field == 40005 &&
            e.eventdate == ParseIsoDate(b2.value))
  {
    var sel := Filter(src.baseline, CancerSelector(codes));
    LeftJoinPartners(sel, src.baseline, SameSlot(40005), CancerRow(stem), e);
    forall b1 ensures b1 in sel <==> b1 in src.baseline && b1.field == 40006 && PrefixMatch(codes, b1.value) {
      FilterMembership(src.baseline, CancerSelector(codes), b1);
    }
    if e in CancerRegistryRows(src, stem, codes) {
      var b1, d :| b1 in sel && LeftPartner(b1, src.baseline, SameSlot(40005), d) && e == CancerRow(stem)(b1, d);
      if d.Some? {
        assert SameSlot(40005)(b1, d.value);
      }
    }
  }

  // ---------------------------------------------------------------------------
  // Hospital diagnoses (fields 41202 / 41204)

  function DiagnosisOn(level: int, codes: seq<string>): (HesinRow, HesinDiagRow) -> bool
  {
    (hi: HesinRow, hd: HesinDiagRow) =>
      hi.eid == hd.eid && hi.insIndex == hd.insIndex && hd.level == level && PrefixMatch(codes, hd.diagIcd10)
  }

  /** Prevalent diagnoses are undated (1900-01-01); incident ones take admidate, else epistart. */
  function DiagnosisDate(hi: HesinRow, prevalent: bool): Option<Date>
  {
    if prevalent then Some(Sentinel) else if hi.admidate.Some? then hi.admidate else hi.epistart
  }

  function DiagnosisRow(stem: string, field: int, prevalent: bool): (HesinRow, HesinDiagRow) -> Event
  {
    (hi: HesinRow, hd: HesinDiagRow) => Event(hi.eid, stem, field, hd.diagIcd10, DiagnosisDate(hi, prevalent))
  }

  /** extract_hospital_primary_diagnoses (level 1, field 41202) and the secondary one (level 2, 41204). */
  function HospitalDiagnosisRows(src: Sources, stem: string, field: int, level: int, codes: seq<string>, prevalent: bool): seq<Event>
  {
    InnerJoin(src.hesin, src.hesinDiag, DiagnosisOn(level, codes), DiagnosisRow(stem, field, prevalent))
  }

  /**
   * A diagnosis row exists exactly for an episode and one of its diagnoses at
   * the requested level whose ICD-10 code starts with a listed code.
   */
  lemma HospitalDiagnosisMembership(src: Sources, stem: string, field: int, level: int, codes: seq<string>, prevalent: bool, e: Event)
    ensures e in HospitalDiagnosisRows(src, stem, field, level, codes, prevalent) <==>
      exists hi, hd :: hi in src.hesin && hd in src.hesinDiag &&
        hi.eid == hd.eid && hi.insIndex == hd.insIndex && hd.level == level && PrefixMatch(codes, hd.diagIcd10) &&
        e == Event(hi.eid, stem, field, hd.diagIcd10, DiagnosisDate(hi, prevalent))
  {
    InnerJoinMembership(src.hesin, src.hesinDiag, DiagnosisOn(level, codes), DiagnosisRow(stem, field, prevalent), e);
  }

  /** The prevalent pass dates every row 1900-01-01; the incident pass uses admidate, falling back to epistart. */
  lemma HospitalDiagnosisDates(src: Sources, stem: string, field: int, level: int, codes: seq<string>, prevalent: bool, e: Event)
    requires e in HospitalDiagnosisRows(src, stem, field, level, codes, prevalent)
    ensures prevalent ==> e.eventdate == Some(Sentinel)
    ensures !prevalent ==>
      exists hi :: hi in src.hesin && hi.eid == e.eid &&
        (if hi.admidate.Some? then e.eventdate == hi.admidate else e.eventdate == hi.epistart)
  {
    HospitalDiagnosisMembership(src, stem, field, level, codes, prevalent, e);
  }

  // ---------------------------------------------------------------------------
  // Hospital procedures (fields 41200 / 41210)

  function ProcedureOn(level: int, codes: seq<string>): (HesinRow, HesinOperRow) -> bool
  {
    (hi: HesinRow, ho: HesinOperRow) =>
      hi.eid == ho.eid && hi.insIndex == ho.insIndex && ho.level == level && PrefixMatch(codes, ho.oper4)
  }

  /** COALESCE(opdate, admidate, epistart, 1900-01-01). */
  function ProcedureDate(hi: HesinRow, ho: HesinOperRow): Date
  {
    if ho.opdate.Some? then ho.opdate.value
    else if hi.admidate.Some? then hi.admidate.value
    else if hi.epistart.Some? then hi.epistart.value
    else Sentinel
  }

  function ProcedureRow(stem: string, field: int): (HesinRow, HesinOperRow) -> Event
  {
    (hi: HesinRow, ho: HesinOperRow) => Event(ho.eid, stem, field, ho.oper4, Some(ProcedureDate(hi, ho)))
  }

  /** extract_hospital_primary_procedures (level 1, field 41200) and the secondary one (level 2, 41210). */
  function ProcedureRows(src: Sources, stem: string, field: int, level: int, codes: seq<string>): seq<Event>
  {
    InnerJoin(src.hesin, src.hesinOper, ProcedureOn(level, codes), ProcedureRow(stem, field))
  }

  /**
   * A procedure row exists exactly for an episode and one of its procedures at
   * the level whose OPCS-4 code starts with a listed code; it is never undated,
   * and its date is the first recorded of opdate, admidate, epistart.
   */
  lemma ProcedureMembership(src: Sources, stem: string, field: int, level: int, codes: seq<string>, e: Event)
    ensures e in ProcedureRows(src, stem, field, level, codes) <==>
      exists hi, ho :: hi in src.hesin && ho in src.hesinOper &&
        hi.eid == ho.eid && hi.insIndex == ho.insIndex && ho.level == level && PrefixMatch(codes, ho.oper4) &&
        e == Event(ho.eid, stem, field, ho.oper4, Some(ProcedureDate(hi, ho)))
    ensures e in ProcedureRows(src, stem, field, level, codes) ==> e.eventdate.Some?
  {
    InnerJoinMembership(src.hesin, src.hesinOper, ProcedureOn(level, codes), ProcedureRow(stem, field), e);
  }

  // ---------------------------------------------------------------------------
  // Mortality (fields 40001 / 40002)

  function MortalityOn(level: int, codes: seq<string>): (DeathRow, DeathCauseRow) -> bool
  {
    (d: DeathRow, c: DeathCauseRow) => d.eid == c.eid && c.level == level && PrefixMatch(codes, c.causeIcd10)
  }

  function MortalityRow(stem: string, field: int): (DeathRow, DeathCauseRow) -> Event
  {
    (d: DeathRow, c: DeathCauseRow) => Event(d.eid, stem, field, c.causeIcd10, d.dateOfDeath)
  }

  /** extract_primary_mortality (level 1, field 40001) and extract_secondary_mortality (level 2, 40002). */
  function MortalityRows(src: Sources, stem: string, field: int, level: int, codes: seq<string>): seq<Event>
  {
    InnerJoin(src.death, src.deathCause, MortalityOn(level, codes), MortalityRow(stem, field))
  }

  /** A mortality row pairs a death with a cause of the level starting with a listed code, dated at death. */
  lemma MortalityMembership(src: Sources, stem: string, field: int, level: int, codes: seq<string>, e: Event)
    ensures e in MortalityRows(src, stem, field, level, codes) <==>
      exists d, c :: d in src.death && c in src.deathCause && d.eid == c.eid && c.level == level &&
        PrefixMatch(codes, c.causeIcd10) && e == Event(d.eid, stem, field, c.causeIcd10, d.dateOfDeath)
  {
    InnerJoinMembership(src.death, src.deathCause, MortalityOn(level, codes), MortalityRow(stem, field), e);
  }

  // ---------------------------------------------------------------------------
  // Primary care (field 42040)

  /** Prevalent events are undated; incident ones keep their date, or 1900-01-01 without one. */
  function PrimaryCareDate(g: GpClinicalRow, prevalent: bool): Date
  {
    if prevalent then Sentinel else if g.eventdate.Some? then g.eventdate.value else Sentinel
  }

  function GpSelector(codes: seq<string>): GpClinicalRow -> bool
  {
    (g: GpClinicalRow) => g.readCode in codes
  }

  function GpRow(stem: string, prevalent: bool): GpClinicalRow -> Event
  {
    (g: GpClinicalRow) => Event(g.eid, stem, 42040, g.readCode, Some(PrimaryCareDate(g, prevalent)))
  }

  /** extract_incident_/extract_prevalent_primary_care_diagnoses: exact Read-code membership. */
  function PrimaryCareRows(src: Sources, stem: string, codes: seq<string>, prevalent: bool): (r: Result<seq<Event>>)
    ensures r.Err? <==> |codes| == 0
  {
    if |codes| == 0 then Err(SqlError)
    else Ok(Map(Filter(src.gpClinical, GpSelector(codes)), GpRow(stem, prevalent)))
  }

  /** A primary-care row is a clinical event whose Read code is listed; it is never undated. */
  lemma PrimaryCareMembership(src: Sources, stem: string, codes: seq<string>, prevalent: bool, e: Event)
    requires |codes| > 0
    ensures e in PrimaryCareRows(src, stem, codes, prevalent).value <==>
      exists g :: g in src.gpClinical && g.readCode in codes && e == Event(g.eid, stem, 42040, g.readCode, Some(PrimaryCareDate(g, prevalent)))
    ensures e in PrimaryCareRows(src, stem, codes, prevalent).value && prevalent ==> e.eventdate == Some(Sentinel)
  {
    var sel := Filter(src.gpClinical, GpSelector(codes));
    MapMembership(sel, GpRow(stem, prevalent), e);
    forall g ensures g in sel <==> g in src.gpClinical && g.readCode in codes {
      FilterMembership(src.gpClinical, GpSelector(codes), g);
    }
  }

  // ---------------------------------------------------------------------------
  // Dispatch

  /** The extractors of extract_field_map, plus extract_field_value for any other field. */
  datatype Extractor =
    | SelfReport(field: int, dateField: int)
    | HospitalDiagnoses(field: int, level: int)
    | HospitalProcedures(field: int, level: int)
    | Mortality(field: int, level: int)
    | PrimaryCareDiagnoses
    | CancerRegistry
    | FieldValue(key: FieldKey)

  /** extract_field_map: the extractor of each standard field. */
  const ExtractFieldMap: map<int, Extractor> := map[
    20001 := SelfReport(20001, 20006),
    20002 := SelfReport(20002, 20008),
    20004 := SelfReport(20004, 20010),
    41200 := HospitalProcedures(41200, 1),
    41210 := HospitalProcedures(41210, 2),
    41202 := HospitalDiagnoses(41202, 1),
    41204 := HospitalDiagnoses(41204, 2),
    40001 := Mortality(40001, 1),
    40002 := Mortality(40002, 2),
    42040 := PrimaryCareDiagnoses,
    40006 := CancerRegistry]

  /** The field id an extractor writes into every row it produces. */
  function WrittenField(x: Extractor): Option<int>
  {
    match x
    case SelfReport(f, _) => Some(f)
    case HospitalDiagnoses(f, _) => Some(f)
    case HospitalProcedures(f, _) => Some(f)
    case Mortality(f, _) => Some(f)
    case PrimaryCareDiagnoses => Some(42040)
    case CancerRegistry => Some(40006)
    case FieldValue(k) => if k.Num? then Some(k.id) else None
  }

  /** Every mapped extractor writes the field it is registered under. */
  lemma ExtractFieldMapConsistent(f: int)
    requires f in ExtractFieldMap
    ensures WrittenField(ExtractFieldMap[f]) == Some(f)
  {
  }

  /** get_values_for_field as the extractors consume it: None (a non-list key) fails like len(None). */
  function CodesFor(defs: Definitions, key: FieldKey, tag: string): (r: Result<seq<string>>)
    ensures r.Ok? ==> GetValuesForField(defs, key, tag) == Ok(Some(r.value))
    ensures r.Err? ==> GetValuesForField(defs, key, tag).Err? || GetValuesForField(defs, key, tag) == Ok(None)
  {
    match GetValuesForField(defs, key, tag)
    case Err(e) => Err(e)
    case Ok(None) => Err(TypeError)
    case Ok(Some(v)) => Ok(v)
  }

  /**
   * The two-pass accumulation of extract_all_*_diagnoses: the incident ("any")
   * pass runs only on a non-empty list, then the prevalent pass likewise.
   * Database.UkbDatabase.RunPass and ExtractAllPasses run the same passes
   * against the database object.
   */
  function TwoPass(incident: seq<string>, prevalent: seq<string>, pass: (seq<string>, bool) -> seq<Event>): (r: seq<Event>)
    ensures |incident| == 0 && |prevalent| == 0 ==> r == []
    ensures forall e :: e in r <==>
      (|incident| > 0 && e in pass(incident, false)) || (|prevalent| > 0 && e in pass(prevalent, true))
  {
    (if |incident| > 0 then pass(incident, false) else []) + (if |prevalent| > 0 then pass(prevalent, true) else [])
  }

  function DiagnosisPass(src: Sources, stem: string, field: int, level: int): (seq<string>, bool) -> seq<Event>
  {
    (codes: seq<string>, prevalent: bool) => HospitalDiagnosisRows(src, stem, field, level, codes, prevalent)
  }

  function PrimaryCarePass(src: Sources, stem: string): (seq<string>, bool) -> seq<Event>
  {
    (codes: seq<string>, prevalent: bool) => if |codes| == 0 then [] else PrimaryCareRows(src, stem, codes, prevalent).value
  }

  /** Whether a numeric field's code lookup fails does not depend on the tag asked for. */
  lemma CodesForTagIndependent(defs: Definitions, f: int, t1: string, t2: string)
    ensures CodesFor(defs, Num(f), t1).Ok? <==> CodesFor(defs, Num(f), t2).Ok?
  {
  }

  /** Both passes of a two-pass extractor over a field's "any" and "prevalent" codes. */
  function TwoPassExtraction(defs: Definitions, field: int, pass: (seq<string>, bool) -> seq<Event>): Result<seq<Event>>
  {
    var incident := CodesFor(defs, Num(field), "any");
    var prevalent := CodesFor(defs, Num(field), "prevalent");
    if incident.Err? then Err(incident.error)
    else if prevalent.Err? then Err(prevalent.error)
    else Ok(TwoPass(incident.value, prevalent.value, pass))
  }

  /** extract_field_value: the field's metadata must carry an "age" or "baseline" time qualifier. */
  function ExtractFieldValue(src: Sources, stem: string, defs: Definitions, key: FieldKey): (r: Result<seq<Event>>)
    ensures r.Ok? ==> key.Num?
    ensures r.Ok? ==>
      exists d: FieldDefinition :: GetFieldDefinition(defs, key) == Ok(Some(d)) && d.metadata.Some? &&
        d.metadata.value.timeQualifier.Some? && d.metadata.value.timeQualifier.value.kind in {"age", "baseline"}
  {
    match GetFieldDefinition(defs, key)
    case Err(e) => Err(e)
    case Ok(None) => Err(TypeError)
    case Ok(Some(d)) =>
      match d.metadata
      case None => Err(KeyError)
      case Some(md) =>
        match md.timeQualifier
        case None => Err(AssertionError)
        case Some(tq) =>
          if tq.kind == "age" then
            var values := GetValuesForField(defs, key, "any");
            var age := GetAgeFieldId(defs, key);
            if values.Err? then Err(values.error)
            else if age.Err? then Err(age.error)
            else if values.value.None? then Err(TypeError)
            else if !key.Num? then Err(SqlError)
            else AgeQualifiedRows(src, stem, key.id, values.value.value, age.value)
          else if tq.kind == "baseline" then
            var values := GetValuesForField(defs, key, "any");
            if values.Err? then Err(values.error)
            else if values.value.None? then Err(TypeError)
            else if !key.Num? then Err(SqlError)
            else BaselineQualifiedRows(src, stem, key.id, values.value.value)
          else Err(AssertionError)
  }

  /** A time qualifier other than "age" and "baseline" (such as "year") fails the assertion. */
  lemma ExtractFieldValueRejectsOtherQualifier(src: Sources, stem: string, defs: Definitions, key: FieldKey, d: FieldDefinition, kind: string, a: Option<int>)
    requires GetFieldDefinition(defs, key) == Ok(Some(d))
    requires d.metadata == Some(FieldMetadata(Some(TimeQualifier(kind, a))))
    requires kind != "age" && kind != "baseline"
    ensures ExtractFieldValue(src, stem, defs, key) == Err(AssertionError)
  {
  }

  /**
   * The rows the SELECT statements of one extractor produce, in statement
   * order, for the phenotype loaded from `stem` (each extractor reloads it by
   * that stem and labels its rows with it).
   */
  function ExtractRows(x: Extractor, stem: string, p: Phenotype, src: Sources): Result<seq<Event>>
  {
    var defs := p.doc.definitions;
    match x
    case SelfReport(f, df) =>
      var codes := CodesFor(defs, Num(f), "any");
      if codes.Err? then Err(codes.error) else DateQualifiedRows(src, stem, f, codes.value, df)
    case HospitalDiagnoses(f, level) => TwoPassExtraction(defs, f, DiagnosisPass(src, stem, f, level))
    case HospitalProcedures(f, level) =>
      var codes := CodesFor(defs, Num(f), "any");
      if codes.Err? then Err(codes.error) else Ok(ProcedureRows(src, stem, f, level, codes.value))
    case Mortality(f, level) =>
      var codes := CodesFor(defs, Num(f), "any");
      if codes.Err? then Err(codes.error) else Ok(MortalityRows(src, stem, f, level, codes.value))
    case PrimaryCareDiagnoses =>
      if p.flags.isBiomarker then Err(Unsupported)
      else TwoPassExtraction(defs, 42040, PrimaryCarePass(src, stem))
    case CancerRegistry =>
      var codes := CodesFor(defs, Num(40006), "any");
      if codes.Err? then Err(codes.error) else Ok(CancerRegistryRows(src, stem, codes.value))
    case FieldValue(key) => ExtractFieldValue(src, stem, defs, key)
  }

  lemma TwoPassLabels(incident: seq<string>, prevalent: seq<string>, pass: (seq<string>, bool) -> seq<Event>, stem: string, field: int)
    requires forall codes, prev, e :: |codes| > 0 && e in pass(codes, prev) ==> e.phenotype == stem && e.fieldId == field
    ensures forall e :: e in TwoPass(incident, prevalent, pass) ==> e.phenotype == stem && e.fieldId == field
  {
  }

  /**
   * Every row an extractor produces is labelled with the stem it was run for
   * and with the field the extractor writes; this is what lets the driver
   * recognise an already extracted (phenotype, field) pair.
   */
  lemma ExtractRowsLabels(x: Extractor, stem: string, p: Phenotype, src: Sources)
    requires ExtractRows(x, stem, p, src).Ok?
    ensures WrittenField(x).Some?
    ensures forall e :: e in ExtractRows(x, stem, p, src).value ==> e.phenotype == stem && e.fieldId == WrittenField(x).value
  {
    var defs := p.doc.definitions;
    var rows := ExtractRows(x, stem, p, src).value;
    match x
    case SelfReport(f, df) =>
      var codes := CodesFor(defs, Num(f), "any").value;
      assert rows == DateQualifiedRows(src, stem, f, codes, df).value;
      SelfReportLabels(src, stem, f, codes, df);
    case HospitalDiagnoses(f, level) =>
      DiagnosisPassLabelled(src, stem, f, level);
      TwoPassExtractionLabels(defs, f, DiagnosisPass(src, stem, f, level), stem);
    case HospitalProcedures(f, level) =>
      forall e | e in rows ensures e.phenotype == stem && e.fieldId == f {
        ProcedureMembership(src, stem, f, level, CodesFor(defs, Num(f), "any").value, e);
      }
    case Mortality(f, level) =>
      forall e | e in rows ensures e.phenotype == stem && e.fieldId == f {
        MortalityMembership(src, stem, f, level, CodesFor(defs, Num(f), "any").value, e);
      }
    case PrimaryCareDiagnoses =>
      PrimaryCarePassLabelled(src, stem);
      TwoPassExtractionLabels(defs, 42040, PrimaryCarePass(src, stem), stem);
    case CancerRegistry =>
      forall e | e in rows ensures e.phenotype == stem && e.fieldId == 40006 {
        CancerRegistryMembership(src, stem, CodesFor(defs, Num(40006), "any").value, e);
      }
    case FieldValue(key) =>
      FieldValueLabels(src, stem, defs, key);
  }

  /** Every row is labelled with the given phenotype and field. */
  predicate Labelled(rows: seq<Event>, stem: string, field: int)
  {
    forall e :: e in rows ==> e.phenotype == stem && e.fieldId == field
  }

  /** Every non-empty pass yields rows labelled with the given phenotype and field. */
  ghost predicate PassLabelled(pass: (seq<string>, bool) -> seq<Event>, stem: string, field: int)
  {
    forall codes, prev, e :: |codes| > 0 && e in pass(codes, prev) ==> e.phenotype == stem && e.fieldId == field
  }

  lemma SelfReportLabels(src: Sources, stem: string, f: int, codes: seq<string>, df: int)
    requires DateQualifiedRows(src, stem, f, codes, df).Ok?
    ensures Labelled(DateQualifiedRows(src, stem, f, codes, df).value, stem, f)
  {
    forall e | e in DateQualifiedRows(src, stem, f, codes, df).value ensures e.phenotype == stem && e.fieldId == f {
      DateQualifiedDates(src, stem, f, codes, df, e);
    }
  }

  lemma DiagnosisPassLabelled(src: Sources, stem: string, f: int, level: int)
    ensures PassLabelled(DiagnosisPass(src, stem, f, level), stem, f)
  {
    forall codes, prev, e | |codes| > 0 && e in DiagnosisPass(src, stem, f, level)(codes, prev)
      ensures e.phenotype == stem && e.fieldId == f {
      HospitalDiagnosisMembership(src, stem, f, level, codes, prev, e);
    }
  }

  lemma PrimaryCarePassLabelled(src: Sources, stem: string)
    ensures PassLabelled(PrimaryCarePass(src, stem), stem, 42040)
  {
    forall codes, prev, e | |codes| > 0 && e in PrimaryCarePass(src, stem)(codes, prev)
      ensures e.phenotype == stem && e.fieldId == 42040 {
      PrimaryCareMembership(src, stem, codes, prev, e);
    }
  }

  lemma TwoPassExtractionLabels(defs: Definitions, f: int, pass: (seq<string>, bool) -> seq<Event>, stem: string)
    requires TwoPassExtraction(defs, f, pass).Ok? && PassLabelled(pass, stem, f)
    ensures Labelled(TwoPassExtraction(defs, f, pass).value, stem, f)
  {
    TwoPassLabels(CodesFor(defs, Num(f), "any").value, CodesFor(defs, Num(f), "prevalent").value, pass, stem, f);
  }

  lemma FieldValueLabels(src: Sources, stem: string, defs: Definitions, key: FieldKey)
    requires ExtractFieldValue(src, stem, defs, key).Ok?
    ensures key.Num? && Labelled(ExtractFieldValue(src, stem, defs, key).value, stem, key.id)
  {
    var rows := ExtractFieldValue(src, stem, defs, key).value;
    var d: FieldDefinition :| GetFieldDefinition(defs, key) == Ok(Some(d)) && d.metadata.Some? &&
      d.metadata.value.timeQualifier.Some? && d.metadata.value.timeQualifier.value.kind in {"age", "baseline"};
    var values := GetValuesForField(defs, key, "any").value.value;
    if d.metadata.value.timeQualifier.value.kind == "age" {
      var age := GetAgeFieldId(defs, key).value;
      forall e | e in rows ensures e.phenotype == stem && e.fieldId == key.id {
        AgeQualifiedDates(src, stem, key.id, values, age, e);
      }
    } else {
      forall e | e in rows ensures e.phenotype == stem && e.fieldId == key.id {
        BaselineQualifiedDates(src, stem, key.id, values, e);
      }
    }
  }

  // ---------------------------------------------------------------------------
  // list_to_sql

  function Quote(x: string): string { "'" + x + "'" }

  /** list_to_sql: "(" + each item in single quotes, joined by "," + ")". */
  function ListToSql(xs: seq<string>): (s: string)
    ensures |xs| == 0 ==> s == "()"
    ensures |s| >= 2 && s[0] == '(' && s[|s| - 1] == ')'
  {
    "(" + Join(Map(xs, Quote), ",") + ")"
  }

  /** Strip one pair of enclosing characters. */
  function Unwrap(s: string): string
  {
    if |s| >= 2 then s[1..|s| - 1] else ""
  }

  /** Read back a rendered list: the items between the parentheses, unquoted. */
  function ParseSqlList(s: string): seq<string>
  {
    var inner := Unwrap(s);
    if |inner| == 0 then [] else Map(Split(inner, ','), Unwrap)
  }

  /** Reading back list_to_sql's text gives the list, for items free of ','. */
  lemma ListToSqlRoundTrip(xs: seq<string>)
    requires forall i :: 0 <= i < |xs| ==> ',' !in xs[i]
    ensures ParseSqlList(ListToSql(xs)) == xs
  {
    var quoted := Map(xs, Quote);
    var joined := Join(quoted, ",");
    assert Unwrap(ListToSql(xs)) == joined;
    if |xs| > 0 {
      forall i | 0 <= i < |quoted| ensures ',' !in quoted[i] {
        assert quoted[i] == "'" + xs[i] + "'";
      }
      SplitJoin(quoted, ',');
      assert |joined| > 0 by { JoinNonEmpty(quoted, ","); }
      forall i | 0 <= i < |xs| ensures Unwrap(quoted[i]) == xs[i] {
        assert quoted[i] == "'" + xs[i] + "'";
      }
    }
  }

  lemma JoinNonEmpty(xs: seq<string>, sep: string)
    requires |xs| >= 1 && |xs[0]| >= 1
    ensures |Join(xs, sep)| >= 1
  {
  }
}
