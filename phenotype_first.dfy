/**
 * The phenotype_first table (db/schemas/phenotype_first.py): for each
 * participant of the cohort, phenotype and source field, the earliest known
 * event date, labelled with the kind of record the field comes from. A
 * post-creation step moves dates on or before the date of birth to the date
 * of birth, except the two "unknown date" placeholders.
 */
module PhenotypeFirstTable {
  import opened Common
  import opened Extraction
  import opened BaselineCohort
  import Config

  /** A row of phenotype_first. */
  datatype FirstEventRow = FirstEventRow(eid: int, phenotype: string, fieldId: int, fieldLabel: string, eventdate: Option<Date>)

  /** The CASE expression that names the source of a field. */
  function FieldLabel(fieldId: int): string
  {
    if fieldId in {41202, 41204, 41200, 41240} then "ehr_hospital"
    else if fieldId in {40001, 40002} then "ehr_death"
    else if fieldId in {42040, 42039} then "ehr_primary_care"
    else if fieldId == 40006 then "ehr_cancer"
    else "selfreport"
  }

  /** The labels of the CASE expression agree with the configured field map; other fields are self-reported. */
  lemma FieldLabelAgreesWithConfig(fieldId: int)
    ensures FieldLabel(fieldId) == if fieldId in Config.FieldMaps then Config.FieldMaps[fieldId] else "selfreport"
  {
  }

  /** GROUP BY p.eid, p.phenotype, p.field_id. */
  type GroupKey = (int, string, int)

  function KeyOf(): Event -> GroupKey { (e: Event) => (e.eid, e.phenotype, e.fieldId) }

  /** MIN(p.eventdate) over the events of group k: the earliest known date, NULL when none is known. */
  function GroupMin(events: seq<Event>, k: GroupKey): (m: Option<Date>)
    ensures m.None? <==> forall e :: e in events && KeyOf()(e) == k ==> e.eventdate.None?
    ensures m.Some? ==> exists e :: e in events && KeyOf()(e) == k && e.eventdate == m
    ensures m.Some? ==> forall e :: e in events && KeyOf()(e) == k && e.eventdate.Some? ==> DateLe(m.value, e.eventdate.value)
  {
    if |events| == 0 then None
    else
      var init := events[..|events| - 1];
      var last := events[|events| - 1];
      assert forall e :: e in events <==> e in init || e == last;
      var m := GroupMin(init, k);
      if KeyOf()(last) != k || last.eventdate.None? then m
      else if m.None? then last.eventdate
      else
        DateLeTotal(m.value, last.eventdate.value);
        assert forall e :: e in init && KeyOf()(e) == k && e.eventdate.Some? ==> DateLe(m.value, e.eventdate.value);
        if DateLe(m.value, last.eventdate.value) then m
        else
          assert forall e :: e in init && KeyOf()(e) == k && e.eventdate.Some? ==> DateLe(last.eventdate.value, e.eventdate.value) by {
            forall e | e in init && KeyOf()(e) == k && e.eventdate.Some?
              ensures DateLe(last.eventdate.value, e.eventdate.value)
            {
              DateLeTrans(last.eventdate.value, m.value, e.eventdate.value);
            }
          }
          last.eventdate
  }

  /** The join condition p.eid = b.eid: the participant is in the cohort. */
  function InCohort(cohort: seq<CohortRow>): Event -> bool
  {
    (e: Event) => exists r :: r in cohort && r.eid == e.eid
  }

  function GroupRow(kept: seq<Event>): GroupKey -> FirstEventRow
  {
    (k: GroupKey) => FirstEventRow(k.0, k.1, k.2, FieldLabel(k.2), GroupMin(kept, k))
  }

  /** SCHEMA_PHENOTYPE_FIRST: one row per group of the events of cohort participants. */
  function PhenotypeFirst(events: seq<Event>, cohort: seq<CohortRow>): seq<FirstEventRow>
  {
    var kept := Filter(events, InCohort(cohort));
    Map(DistinctKeys(kept, KeyOf()), GroupRow(kept))
  }

  function RowKey(r: FirstEventRow): GroupKey { (r.eid, r.phenotype, r.fieldId) }

  /**
   * The table has exactly one row per (eid, phenotype, field_id) group that
   * has an event of a cohort participant.
   */
  lemma PhenotypeFirstGroups(events: seq<Event>, cohort: seq<CohortRow>)
    ensures var t := PhenotypeFirst(events, cohort);
      (forall i, j :: 0 <= i < j < |t| ==> RowKey(t[i]) != RowKey(t[j])) &&
      (forall r :: r in t ==> exists e :: e in events && KeyOf()(e) == RowKey(r) && InCohort(cohort)(e))
  {
    var kept := Filter(events, InCohort(cohort));
    var ks := DistinctKeys(kept, KeyOf());
    var t := PhenotypeFirst(events, cohort);
    assert forall i :: 0 <= i < |t| ==> RowKey(t[i]) == ks[i];
    forall r | r in t
      ensures exists e :: e in events && KeyOf()(e) == RowKey(r) && InCohort(cohort)(e)
    {
      var i :| 0 <= i < |t| && t[i] == r;
      assert ks[i] in ks;
      var e :| e in kept && KeyOf()(e) == ks[i];
      FilterMembership(events, InCohort(cohort), e);
    }
  }

  /** Every event of a cohort participant has its group in the table. */
  lemma PhenotypeFirstCovers(events: seq<Event>, cohort: seq<CohortRow>, e: Event)
    requires e in events && InCohort(cohort)(e)
    ensures exists r :: r in PhenotypeFirst(events, cohort) && RowKey(r) == KeyOf()(e)
  {
    var kept := Filter(events, InCohort(cohort));
    FilterMembership(events, InCohort(cohort), e);
    var ks := DistinctKeys(kept, KeyOf());
    assert KeyOf()(e) in ks;
    var i :| 0 <= i < |ks| && ks[i] == KeyOf()(e);
    var t := PhenotypeFirst(events, cohort);
    assert RowKey(t[i]) == KeyOf()(e);
  }

  /**
   * Each row carries the label of its field and the earliest known date of its
   * group: a date of one of the group's events, on or before all of them, and
   * NULL only when no event of the group is dated.
   */
  lemma PhenotypeFirstEarliest(events: seq<Event>, cohort: seq<CohortRow>, r: FirstEventRow)
    requires r in PhenotypeFirst(events, cohort)
    ensures r.fieldLabel == FieldLabel(r.fieldId)
    ensures r.eventdate.None? <==> forall e :: e in events && KeyOf()(e) == RowKey(r) ==> e.eventdate.None?
    ensures r.eventdate.Some? ==> exists e :: e in events && KeyOf()(e) == RowKey(r) && e.eventdate == r.eventdate
    ensures r.eventdate.Some? ==> forall e :: e in events && KeyOf()(e) == RowKey(r) && e.eventdate.Some? ==> DateLe(r.eventdate.value, e.eventdate.value)
  {
    var kept := Filter(events, InCohort(cohort));
    var ks := DistinctKeys(kept, KeyOf());
    var t := PhenotypeFirst(events, cohort);
    var i :| 0 <= i < |t| && t[i] == r;
    var k := ks[i];
    assert k in ks;
    assert r == GroupRow(kept)(k);
    // every event of the group belongs to a cohort participant, so the join keeps it
    var x :| x in kept && KeyOf()(x) == k;
    FilterMembership(events, InCohort(cohort), x);
    forall e | e in events && KeyOf()(e) == k
      ensures e in kept
    {
      assert e.eid == x.eid;
      FilterMembership(events, InCohort(cohort), e);
    }
    forall e | e in kept
      ensures e in events
    {
      FilterMembership(events, InCohort(cohort), e);
    }
  }

  /** The date extraction gives an event whose real date is unknown. */
  const Sentinel := Date(1900, 1, 1)

  /**
   * A group with an event dated on the sentinel has a row dated on or before
   * the sentinel; when no event of the group is earlier, the row carries the
   * sentinel itself, whatever real dates the other events have.
   */
  lemma SentinelWins(events: seq<Event>, cohort: seq<CohortRow>, r: FirstEventRow)
    requires r in PhenotypeFirst(events, cohort)
    requires exists e :: e in events && KeyOf()(e) == RowKey(r) && e.eventdate == Some(Sentinel)
    ensures r.eventdate.Some? && DateLe(r.eventdate.value, Sentinel)
    ensures (forall e :: e in events && KeyOf()(e) == RowKey(r) && e.eventdate.Some? ==> DateLe(Sentinel, e.eventdate.value)) ==>
      r.eventdate == Some(Sentinel)
  {
    PhenotypeFirstEarliest(events, cohort, r);
    if r.eventdate.Some? && forall e :: e in events && KeyOf()(e) == RowKey(r) && e.eventdate.Some? ==> DateLe(Sentinel, e.eventdate.value) {
      var x :| x in events && KeyOf()(x) == RowKey(r) && x.eventdate == r.eventdate;
      DateLeAntisymmetric(r.eventdate.value, Sentinel);
    }
  }

  // ---------------------------------------------------------------------------
  // POST_CREATE_PHENOTYPE_FIRST

  /** The date of birth the UPDATE joins a row of `eid` with. */
  function DobOf(cohort: seq<CohortRow>, eid: int): (d: Option<Date>)
    ensures d.Some? ==> exists r :: r in cohort && r.eid == eid && r.dob == d
  {
    if |cohort| == 0 then None
    else if cohort[0].eid == eid then cohort[0].dob
    else DobOf(cohort[1..], eid)
  }

  /** The placeholders the step leaves alone: NOT IN ('1900-01-01', '1901-01-01'). */
  predicate UnknownDate(d: Date)
  {
    d == Date(1900, 1, 1) || d == Date(1901, 1, 1)
  }

  /** The UPDATE applied to one row. */
  function ClampRow(cohort: seq<CohortRow>, r: FirstEventRow): (c: FirstEventRow)
    ensures c.eid == r.eid && c.phenotype == r.phenotype && c.fieldId == r.fieldId && c.fieldLabel == r.fieldLabel
    ensures c.eventdate.None? <==> r.eventdate.None?
  {
    match (r.eventdate, DobOf(cohort, r.eid))
    case (Some(e), Some(b)) =>
      if DateLe(e, b) && !UnknownDate(e) then r.(eventdate := Some(b)) else r
    case _ => r
  }

  function Clamp(cohort: seq<CohortRow>): FirstEventRow -> FirstEventRow
  {
    (r: FirstEventRow) => ClampRow(cohort, r)
  }

  /** POST_CREATE_PHENOTYPE_FIRST over the whole table, in place. */
  method ClampToBirth(table: array<FirstEventRow>, cohort: seq<CohortRow>)
    modifies table
    ensures table[..] == Map(old(table[..]), Clamp(cohort))
  {
    for k := 0 to table.Length
      invariant forall j :: 0 <= j < k ==> table[j] == ClampRow(cohort, old(table[j]))
      invariant forall j :: k <= j < table.Length ==> table[j] == old(table[j])
    {
      table[k] := ClampRow(cohort, table[k]);
    }
  }

  /** After the step no known, real event date lies before the date of birth. */
  lemma ClampNotBeforeBirth(cohort: seq<CohortRow>, r: FirstEventRow)
    requires r.eventdate.Some? && !UnknownDate(r.eventdate.value)
    requires DobOf(cohort, r.eid).Some?
    ensures DateLe(DobOf(cohort, r.eid).value, ClampRow(cohort, r).eventdate.value)
  {
    var e := r.eventdate.value;
    var b := DobOf(cohort, r.eid).value;
    DateLeTotal(e, b);
    DateLeTotal(b, b);
  }

  /** Dates after the date of birth, placeholders and rows without a date of birth are kept. */
  lemma ClampKeeps(cohort: seq<CohortRow>, r: FirstEventRow)
    requires r.eventdate.None? || UnknownDate(r.eventdate.value) || DobOf(cohort, r.eid).None? ||
             DateLt(DobOf(cohort, r.eid).value, r.eventdate.value)
    ensures ClampRow(cohort, r) == r
  {
    if r.eventdate.Some? && DobOf(cohort, r.eid).Some? && !UnknownDate(r.eventdate.value) {
      var e := r.eventdate.value;
      var b := DobOf(cohort, r.eid).value;
      if DateLe(e, b) {
        assert DateLe(b, e) && b != e;
        DateLeAntisymmetric(e, b);
      }
    }
  }

  lemma DateLeAntisymmetric(a: Date, b: Date)
    requires DateLe(a, b) && DateLe(b, a)
    ensures a == b
  {
  }

  /** Running the step twice changes nothing more. */
  lemma ClampIdempotent(cohort: seq<CohortRow>, r: FirstEventRow)
    ensures ClampRow(cohort, ClampRow(cohort, r)) == ClampRow(cohort, r)
  {
    var c := ClampRow(cohort, r);
    if c != r {
      var b := DobOf(cohort, r.eid).value;
      assert c.eventdate == Some(b);
      DateLeTotal(b, b);
    }
  }
}
