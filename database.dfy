/**
 * The UK Biobank database object (db/ukbdb.py, class UKBDatabase) as a class
 * over the `phenotypes` table: query_insert, the two-pass extractors that
 * accumulate over their SELECT statements, the lookups and deletions the
 * extraction driver uses, and the incrementally built event query.
 *
 * The source tables are read-only here and held as a constant.  The
 * connection runs with autocommit (its default), so every INSERT and DELETE
 * takes effect at once; `commits` counts explicit commit() calls.
 */
module Database {
  import opened Common
  import opened PhenotypeModel
  import opened Extraction

  /** What query_insert and the extractors return: a row count when inserting, the fetched rows otherwise. */
  datatype Outcome = Inserted(count: nat) | Fetched(rows: seq<Event>)

  /** The outcome of running SELECTs producing `rows` in the given mode. */
  function OutcomeOf(rows: seq<Event>, insert: bool): Outcome
  {
    if insert then Inserted(|rows|) else Fetched(rows)
  }

  /** `n += ...` for both modes: counts add up, fetched tuples concatenate. */
  function Combine(a: Outcome, b: Outcome): Outcome
  {
    match (a, b)
    case (Inserted(x), Inserted(y)) => Inserted(x + y)
    case (Fetched(x), Fetched(y)) => Fetched(x + y)
    case _ => a
  }

  lemma CombineOutcomes(x: seq<Event>, y: seq<Event>, insert: bool)
    ensures Combine(OutcomeOf(x, insert), OutcomeOf(y, insert)) == OutcomeOf(x + y, insert)
  {
  }

  /** The rows of a table other than those of one (phenotype, field) pair. */
  function WithoutEntries(table: seq<Event>, name: string, field: int): seq<Event>
  {
    Filter(table, OtherPair(name, field))
  }

  function OtherPair(name: string, field: int): Event -> bool
  {
    (e: Event) => !(e.phenotype == name && e.fieldId == field)
  }

  /** The distinct phenotype names holding rows of field f. */
  function PhenotypesWithField(table: seq<Event>, f: int): set<string>
  {
    set e | e in table && e.fieldId == f :: e.phenotype
  }

  /** The rows get_phenotype_events_by_field selects: optional field and phenotype filters. */
  predicate EventSelected(fieldIds: Option<seq<int>>, phenotypes: Option<seq<string>>, e: Event)
  {
    (fieldIds.None? || e.fieldId in fieldIds.value) && (phenotypes.None? || e.phenotype in phenotypes.value)
  }

  function EventFilter(fieldIds: Option<seq<int>>, phenotypes: Option<seq<string>>): Event -> bool
  {
    (e: Event) => EventSelected(fieldIds, phenotypes, e)
  }

  /** The field filter, when field ids are given. */
  function FieldClause(fieldIds: Option<seq<int>>): string
  {
    if fieldIds.Some? then " WHERE field_id IN " + ListToSql(Map(fieldIds.value, ShowInt)) else ""
  }

  /** The phenotype filter, joined by AND after a field filter and by WHERE otherwise. */
  function PhenotypeClause(fieldIds: Option<seq<int>>, phenotypes: Option<seq<string>>): string
  {
    if phenotypes.None? then ""
    else if fieldIds.Some? then " AND phenotype IN " + ListToSql(phenotypes.value)
    else " WHERE phenotype IN " + ListToSql(phenotypes.value)
  }

  const SelectAll: string := "SELECT * FROM phenotypes"

  /** The text of get_phenotype_events_by_field's statement, by which filters are given. */
  function EventsQueryText(fieldIds: Option<seq<int>>, phenotypes: Option<seq<string>>): string
  {
    SelectAll + FieldClause(fieldIds) + PhenotypeClause(fieldIds, phenotypes) + ";"
  }

  lemma WhereInFieldClause(list: string)
    ensures Contains(SelectAll + " WHERE field_id IN " + list, "WHERE")
  {
    assert " WHERE field_id IN " == " " + "WHERE" + " field_id IN ";
    assert SelectAll + " WHERE field_id IN " + list == (SelectAll + " ") + "WHERE" + (" field_id IN " + list);
    ContainsMiddle(SelectAll + " ", "WHERE", " field_id IN " + list);
  }

  /** The `"WHERE" in sql` test sees a WHERE exactly when the field filter was added. */
  lemma WhereAfterFieldClause(fieldIds: Option<seq<int>>)
    ensures Contains(SelectAll + FieldClause(fieldIds), "WHERE") <==> fieldIds.Some?
  {
    if fieldIds.Some? {
      WhereInFieldClause(ListToSql(Map(fieldIds.value, ShowInt)));
      assert SelectAll + FieldClause(fieldIds) == SelectAll + " WHERE field_id IN " + ListToSql(Map(fieldIds.value, ShowInt));
    } else {
      assert SelectAll + FieldClause(fieldIds) == SelectAll;
      NotContainsWithoutFirst(SelectAll, "WHERE");
    }
  }

  const InsertInto := "INSERT INTO "

  /**
   * The statement query_insert runs for one SELECT in insert mode, as written:
   * the prefix is a plain string, so `{table}` stays in the text.
   */
  function InsertStatementAsWritten(table: string, select: string): (s: string)
    ensures |s| == |InsertInto| + 8 + |select|
    ensures s[..|InsertInto|] == InsertInto && s[|InsertInto|..|InsertInto| + 7] == "{table}"
  {
    InsertInto + "{table}" + " " + select
  }

  /** The statement ignores the target table: every caller gets the same text. */
  lemma InsertIgnoresTable(t1: string, t2: string, select: string)
    ensures InsertStatementAsWritten(t1, select) == InsertStatementAsWritten(t2, select)
    ensures t1 != "{table}" ==> InsertStatementAsWritten(t1, select) != InsertStatement(t1, select)
  {
  }

  /** The evidently intended statement: the rows go into the named table. */
  function InsertStatement(table: string, select: string): (s: string)
    ensures |s| == |InsertInto| + |table| + 1 + |select|
    ensures s[..|InsertInto|] == InsertInto && s[|InsertInto|..|InsertInto| + |table|] == table
    ensures s[|InsertInto| + |table|..] == " " + select
  {
    InsertInto + table + " " + select
  }

  /** The intended statements of different tables differ, so each insert reaches the table its caller names. */
  lemma InsertNamesTable(t1: string, t2: string, select: string)
    requires t1 != t2
    ensures InsertStatement(t1, select) != InsertStatement(t2, select)
  {
  }

  class UkbDatabase {
    /** The source tables the extractors read. */
    const sources: Sources
    /** The phenotypes table. */
    var phenotypes: seq<Event>
    /** Number of explicit commit() calls. */
    var commits: nat

    constructor(sources: Sources, phenotypes: seq<Event>)
      ensures this.sources == sources && this.phenotypes == phenotypes && commits == 0
    {
      this.sources := sources;
      this.phenotypes := phenotypes;
      commits := 0;
    }

    /**
     * get_phenotypes_by_field: the distinct phenotypes holding rows of the field.
     * The id is pasted unquoted into the statement, so a textual key such as
     * "baseline_fields" names an unknown column and MySQL refuses it.
     */
    function GetPhenotypesByField(f: FieldKey): (r: Result<set<string>>)
      reads this
      ensures r.Ok? <==> f.Num?
      ensures r.Ok? ==> forall name :: name in r.value <==> exists e :: e in phenotypes && e.fieldId == f.id && e.phenotype == name
    {
      if f.Num? then Ok(PhenotypesWithField(phenotypes, f.id)) else Err(SqlError)
    }

    /** delete_phenotype_entries_by_field: removes the pair's rows and returns how many went. */
    method DeletePhenotypeEntriesByField(name: string, field: int) returns (count: nat)
      modifies this
      ensures phenotypes == WithoutEntries(old(phenotypes), name, field)
      ensures count == |old(phenotypes)| - |phenotypes|
      ensures commits == old(commits)
    {
      var before := |phenotypes|;
      phenotypes := WithoutEntries(phenotypes, name, field);
      count := before - |phenotypes|;
    }

    /** commit(): with autocommit on, it changes no table. */
    method Commit()
      modifies this
      ensures phenotypes == old(phenotypes) && commits == old(commits) + 1
    {
      commits := commits + 1;
    }

    /**
     * query_insert: with insert, each SELECT's rows are added to the table and
     * the result is the total row count; otherwise the fetched rows are
     * concatenated in statement order and the table is left alone.
     */
    method QueryInsert(selects: seq<seq<Event>>, insert: bool) returns (o: Outcome)
      modifies this
      ensures o == OutcomeOf(Flatten(selects), insert)
      ensures phenotypes == old(phenotypes) + (if insert then Flatten(selects) else [])
      ensures commits == old(commits)
    {
      var i := 0;
      var total := 0;
      var fetched := [];
      while i < |selects|
        invariant 0 <= i <= |selects|
        invariant insert ==> phenotypes == old(phenotypes) + Flatten(selects[..i]) && total == |Flatten(selects[..i])|
        invariant !insert ==> phenotypes == old(phenotypes) && fetched == Flatten(selects[..i])
        invariant commits == old(commits)
      {
        assert selects[..i + 1][..i] == selects[..i];
        if insert {
          phenotypes := phenotypes + selects[i];
          total := total + |selects[i]|;
        } else {
          fetched := fetched + selects[i];
        }
        i := i + 1;
      }
      assert selects[..i] == selects;
      o := if insert then Inserted(total) else Fetched(fetched);
    }

    /** One SELECT through query_insert. */
    method RunSelect(rows: seq<Event>, insert: bool) returns (o: Outcome)
      modifies this
      ensures o == OutcomeOf(rows, insert)
      ensures phenotypes == old(phenotypes) + (if insert then rows else [])
      ensures commits == old(commits)
    {
      assert Flatten([rows]) == rows by {
        assert [rows][..0] == [];
      }
      o := QueryInsert([rows], insert);
    }

    /**
     * extract_all_hospital_primary/secondary_diagnoses and the non-biomarker
     * branch of extract_all_primary_care_diagnoses: `n` starts at 0 or (), the
     * incident ("any") pass runs when its code list is non-empty and adds to
     * n, then the prevalent pass likewise.
     */
    method ExtractAllPasses(defs: Definitions, field: int, pass: (seq<string>, bool) -> seq<Event>, insert: bool) returns (r: Result<Outcome>)
      modifies this
      ensures TwoPassExtraction(defs, field, pass).Err? ==>
        r == Err(TwoPassExtraction(defs, field, pass).error) && phenotypes == old(phenotypes)
      ensures TwoPassExtraction(defs, field, pass).Ok? ==>
        var rows := TwoPassExtraction(defs, field, pass).value;
        r == Ok(OutcomeOf(rows, insert)) && phenotypes == old(phenotypes) + (if insert then rows else [])
      ensures commits == old(commits)
    {
      var incident := CodesFor(defs, Num(field), "any");
      if incident.Err? {
        return Err(incident.error);
      }
      CodesForTagIndependent(defs, field, "any", "prevalent");
      var prevalent := CodesFor(defs, Num(field), "prevalent");
      assert TwoPassExtraction(defs, field, pass) == Ok(TwoPass(incident.value, prevalent.value, pass));
      var first, n1 := RunPass(incident.value, false, pass, insert);
      var second, n2 := RunPass(prevalent.value, true, pass, insert);
      CombineOutcomes(first, second, insert);
      r := Ok(Combine(n1, n2));
    }

    /** One pass: its SELECT runs only when its code list is non-empty; an empty list adds nothing to n. */
    method RunPass(codes: seq<string>, prevalent: bool, pass: (seq<string>, bool) -> seq<Event>, insert: bool)
      returns (rows: seq<Event>, o: Outcome)
      modifies this
      ensures rows == (if |codes| > 0 then pass(codes, prevalent) else [])
      ensures o == OutcomeOf(rows, insert)
      ensures phenotypes == old(phenotypes) + (if insert then rows else [])
      ensures commits == old(commits)
    {
      rows := [];
      o := OutcomeOf([], insert);
      if |codes| > 0 {
        rows := pass(codes, prevalent);
        o := RunSelect(rows, insert);
      } else {
        assert phenotypes + [] == phenotypes;
      }
    }

    /**
     * Run one extractor for a phenotype loaded from `stem`, inserting its rows
     * or returning them; an extractor that fails changes nothing.
     */
    method Extract(x: Extractor, stem: string, p: Phenotype, insert: bool) returns (r: Result<Outcome>)
      modifies this
      ensures ExtractRows(x, stem, p, sources).Err? ==>
        r == Err(ExtractRows(x, stem, p, sources).error) && phenotypes == old(phenotypes)
      ensures ExtractRows(x, stem, p, sources).Ok? ==>
        var rows := ExtractRows(x, stem, p, sources).value;
        r == Ok(OutcomeOf(rows, insert)) && phenotypes == old(phenotypes) + (if insert then rows else [])
      ensures commits == old(commits)
    {
      if x.HospitalDiagnoses? {
        r := ExtractAllPasses(p.doc.definitions, x.field, DiagnosisPass(sources, stem, x.field, x.level), insert);
      } else if x.PrimaryCareDiagnoses? && !p.flags.isBiomarker {
        r := ExtractAllPasses(p.doc.definitions, 42040, PrimaryCarePass(sources, stem), insert);
      } else {
        var rows := ExtractRows(x, stem, p, sources);
        if rows.Err? {
          return Err(rows.error);
        }
        var o := RunSelect(rows.value, insert);
        r := Ok(o);
      }
    }

    /**
     * get_phenotype_events_by_field: the statement grows step by step, and the
     * phenotype filter is joined with AND when the text already holds a WHERE.
     * An empty list renders `IN ()`, which MySQL rejects; the error is re-raised.
     */
    method GetPhenotypeEventsByField(fieldIds: Option<seq<int>>, phenotypes: Option<seq<string>>)
      returns (sql: string, rows: Result<seq<Event>>)
      ensures sql == EventsQueryText(fieldIds, phenotypes)
      ensures rows == EventsByField(this.phenotypes, fieldIds, phenotypes)
    {
      sql := SelectAll;
      if fieldIds.Some? {
        sql := sql + " WHERE field_id IN " + ListToSql(Map(fieldIds.value, ShowInt));
      }
      ghost var head := sql;
      assert head == SelectAll + FieldClause(fieldIds);
      WhereAfterFieldClause(fieldIds);
      if phenotypes.Some? {
        if Contains(sql, "WHERE") {
          sql := sql + " AND phenotype IN " + ListToSql(phenotypes.value);
        } else {
          sql := sql + " WHERE phenotype IN " + ListToSql(phenotypes.value);
        }
      }
      assert sql == head + PhenotypeClause(fieldIds, phenotypes);
      sql := sql + ";";
      if fieldIds == Some([]) || phenotypes == Some([]) {
        rows := Err(SqlError);
      } else {
        rows := Ok(Filter(this.phenotypes, EventFilter(fieldIds, phenotypes)));
      }
    }
  }

  /** Deleting a pair removes all of its rows and keeps every other row. */
  lemma DeleteRemovesExactlyThePair(table: seq<Event>, name: string, field: int, e: Event)
    ensures e in WithoutEntries(table, name, field) <==> e in table && !(e.phenotype == name && e.fieldId == field)
    ensures name !in PhenotypesWithField(WithoutEntries(table, name, field), field)
  {
    FilterMembership(table, OtherPair(name, field), e);
    forall e' | e' in WithoutEntries(table, name, field) ensures !(e'.phenotype == name && e'.fieldId == field) {
      FilterMembership(table, OtherPair(name, field), e');
    }
  }

  /** The rows get_phenotype_events_by_field returns: an SQL error for an empty list, else the filtered table. */
  function EventsByField(table: seq<Event>, fieldIds: Option<seq<int>>, phenotypes: Option<seq<string>>): Result<seq<Event>>
  {
    if fieldIds == Some([]) || phenotypes == Some([]) then Err(SqlError)
    else Ok(Filter(table, EventFilter(fieldIds, phenotypes)))
  }

  /**
   * The query fails exactly when a given list is empty; otherwise a selected
   * event matches every given filter, and every such row of the table is selected.
   */
  lemma EventsByFieldMembership(table: seq<Event>, fieldIds: Option<seq<int>>, phenotypes: Option<seq<string>>, e: Event)
    ensures EventsByField(table, fieldIds, phenotypes).Err? <==> fieldIds == Some([]) || phenotypes == Some([])
    ensures EventsByField(table, fieldIds, phenotypes).Err? ==> EventsByField(table, fieldIds, phenotypes).error == SqlError
    ensures EventsByField(table, fieldIds, phenotypes).Ok? ==>
      (e in EventsByField(table, fieldIds, phenotypes).value <==>
        e in table && (fieldIds.Some? ==> e.fieldId in fieldIds.value) && (phenotypes.Some? ==> e.phenotype in phenotypes.value))
  {
    FilterMembership(table, EventFilter(fieldIds, phenotypes), e);
  }
}
