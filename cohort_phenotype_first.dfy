/**
 * The cohort_phenotype_first merge (db/schemas/cohort_phenotype_first.py):
 * every participant of baseline_cohort LEFT JOINed with their phenotype_first
 * rows, with a selection of baseline columns and a sex label. The full merge
 * and the basic merge differ only in the columns they select.
 */
module CohortPhenotypeFirst {
  import opened Common
  import opened Extraction
  import opened BaselineCohort
  import opened PhenotypeFirstTable

  /** The fN columns the full merge selects, with the names it gives them. */
  const MergeColumns: seq<(int, string)> := [
    (31, "sex"), (53, "date_baseline_assessment"), (54, "AssessmentCentre"),
    (21003, "age_baseline"), (189, "TownsendIndex"), (21001, "BMI"), (50, "height"),
    (21002, "weight"), (95, "sys_bp"), (94, "diast_bp"), (20116, "smoking_status"),
    (20117, "alcohol_status"), (21000, "ethnic_background")]

  /** The fN columns the basic merge selects. */
  const MergeBasicColumns: seq<(int, string)> := [
    (31, "sex"), (53, "date_baseline_assessment"), (54, "AssessmentCentre"), (21003, "age_baseline")]

  /**
   * A row of the merge. `columns` follows the column list of the merge, NULL
   * as None; `singleReg` is the pair (gp_ehr_single_reg, gp_ehr_deduct_date),
   * selected by the basic merge only; `first` is the joined phenotype_first
   * row, None when the participant has none.
   */
  datatype MergedRow = MergedRow(
    eid: int,
    country: Option<char>,
    dob: Option<Date>,
    gpEhr: Option<int>,
    singleReg: Option<(int, Option<Date>)>,
    sexLabel: string,
    columns: seq<Option<string>>,
    deathDate: Option<Date>,
    first: Option<FirstEventRow>)

  /**
   * IF(b.f31 = 0, 'female', 'male'): the comparison is numeric, so a NULL sex
   * is labelled male and a non-numeric one female.
   */
  function SexLabel(sex: Option<string>): string
  {
    if sex.Some? && SqlNumber(sex.value) == 0 then "female" else "male"
  }

  /** With the UK Biobank coding of field 31 (0 female, 1 male) the label follows the code. */
  lemma SexLabelFollowsCoding(code: nat)
    ensures SexLabel(Some(Show(code))) == if code == 0 then "female" else "male"
    ensures SexLabel(None) == "male"
  {
    ParseShow(code);
  }

  function ColumnOf(fields: map<int, string>): ((int, string)) -> Option<string>
  {
    (c: (int, string)) => Column(fields, c.0)
  }

  /** One output row for a cohort row and its optional phenotype_first row. */
  function MergeRow(basic: bool, b: CohortRow, f: Option<FirstEventRow>): (m: MergedRow)
    ensures m.eid == b.eid && m.first == f
    ensures |m.columns| == if basic then |MergeBasicColumns| else |MergeColumns|
  {
    MergedRow(
      b.eid, b.country, b.dob, b.gpEhr,
      if basic then Some((b.singleReg, b.deductDate)) else None,
      SexLabel(Column(b.fields, SexField)),
      Map(if basic then MergeBasicColumns else MergeColumns, ColumnOf(b.fields)),
      b.deathDate,
      f)
  }

  function SameEid(): (CohortRow, FirstEventRow) -> bool
  {
    (b: CohortRow, f: FirstEventRow) => b.eid == f.eid
  }

  function Make(basic: bool): (CohortRow, Option<FirstEventRow>) -> MergedRow
  {
    (b: CohortRow, f: Option<FirstEventRow>) => MergeRow(basic, b, f)
  }

  /** SCHEMA_COHORT_PHENOTYPE_FIRST_MERGE (basic == false) and _MERGE_BASIC (basic == true). */
  function Merge(basic: bool, cohort: seq<CohortRow>, firsts: seq<FirstEventRow>): seq<MergedRow>
  {
    LeftJoin(cohort, firsts, SameEid(), Make(basic))
  }

  /**
   * A merged row is a cohort row with one of its phenotype_first rows, or a
   * cohort row with no phenotype_first row at all, with NULL for those columns.
   */
  lemma MergeMembership(basic: bool, cohort: seq<CohortRow>, firsts: seq<FirstEventRow>, m: MergedRow)
    ensures m in Merge(basic, cohort, firsts) <==>
      exists b :: b in cohort && (
        (exists f :: f in firsts && f.eid == b.eid && m == MergeRow(basic, b, Some(f))) ||
        ((forall f :: f in firsts ==> f.eid != b.eid) && m == MergeRow(basic, b, None)))
  {
    LeftJoinMembership(cohort, firsts, SameEid(), Make(basic), m);
  }

  function OfParticipant(eid: int): FirstEventRow -> bool
  {
    (f: FirstEventRow) => f.eid == eid
  }

  lemma {:induction false} MatchesCount<C>(b: CohortRow, firsts: seq<FirstEventRow>, make: (CohortRow, FirstEventRow) -> C)
    ensures |Matches(b, firsts, SameEid(), make)| == Count(firsts, OfParticipant(b.eid))
  {
    if |firsts| > 0 {
      MatchesCount(b, firsts[..|firsts| - 1], make);
    }
  }

  /**
   * A participant with k phenotype_first rows contributes k rows to the merge,
   * and a participant with none contributes exactly one: nobody is dropped.
   */
  lemma MergeRowsPerParticipant(basic: bool, b: CohortRow, firsts: seq<FirstEventRow>)
    ensures var k := Count(firsts, OfParticipant(b.eid));
      |LeftMatches(b, firsts, SameEid(), Make(basic))| == if k == 0 then 1 else k
  {
    MatchesCount(b, firsts, WithSome(Make(basic)));
  }

  /** The merge has at least as many rows as the cohort: the LEFT JOIN drops no participant. */
  lemma {:induction false} MergeSize(basic: bool, cohort: seq<CohortRow>, firsts: seq<FirstEventRow>)
    ensures |Merge(basic, cohort, firsts)| >= |cohort|
  {
    if |cohort| > 0 {
      var init, last := cohort[..|cohort| - 1], cohort[|cohort| - 1];
      MergeSize(basic, init, firsts);
      MergeRowsPerParticipant(basic, last, firsts);
      assert cohort == init + [last];
      FlatMapAppend(init, [last], (a: CohortRow) => LeftMatches(a, firsts, SameEid(), Make(basic)));
    }
  }
}
