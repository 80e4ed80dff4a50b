/**
 * The extraction driver (cli/etl/extract_phenotype.py).  For every phenotype
 * stem the fields to process are chosen, each field passes the static checks
 * (SNOMED-CT and prescriptions are not extracted, undefined fields are
 * skipped), a field already present in `phenotypes` is skipped or, on
 * refresh, deleted first, and the field's extractor then inserts its rows
 * or, in testing mode, returns them.
 *
 * The run is specified as a fold (`Run`) over the stems and, inside each
 * stem, over its fields (`FieldsRun`); `ExtractPhenotypes` is the loop the
 * source writes, proved equal to the fold.  The first exception ends the run;
 * because the connection autocommits, whatever was inserted or deleted
 * before it stays.
 */
module ExtractDriver {
  import opened Common
  import opened PhenotypeModel
  import opened Extraction
  import opened Database
  import opened CatalogueModel
  import Config

  /** The `fields` argument: None, a list, or one field. */
  datatype FieldsArg = NoFields | FieldList(keys: seq<FieldKey>) | SingleField(key: FieldKey)

  /** Python truthiness of a field key: 0 and "" are false. */
  predicate KeyTruthy(k: FieldKey) {
    match k
    case Num(i) => i != 0
    case Named(s) => s != ""
  }

  /** fields_to_process: a non-empty list as given, a truthy single field as a one-element list, otherwise the definition fields. */
  function FieldsToProcess(fields: FieldsArg, defined: seq<FieldKey>): seq<FieldKey>
  {
    match fields
    case FieldList(keys) => if |keys| > 0 then keys else defined
    case SingleField(k) => if KeyTruthy(k) then [k] else defined
    case NoFields => defined
  }

  /** Every field processed for a phenotype was either asked for or is one of its definition fields; with no usable argument it is exactly the definition fields. */
  lemma FieldsToProcessOrigin(fields: FieldsArg, defined: seq<FieldKey>)
    ensures forall f :: f in FieldsToProcess(fields, defined) ==>
      f in defined || (fields.FieldList? && f in fields.keys) || (fields.SingleField? && f == fields.key)
    ensures fields.NoFields? || (fields.FieldList? && fields.keys == []) || (fields.SingleField? && !KeyTruthy(fields.key)) ==>
      FieldsToProcess(fields, defined) == defined
  {
  }

  /** field_to_function: the registered extractor of an integer field, extract_field_value for any other key. */
  function FieldToFunction(f: FieldKey): Extractor
  {
    if f.Num? && f.id in ExtractFieldMap then ExtractFieldMap[f.id] else FieldValue(f)
  }

  /** Whatever extractor an integer field dispatches to labels its rows with that field. */
  lemma FieldToFunctionWritesItsField(f: FieldKey)
    requires f.Num?
    ensures WrittenField(FieldToFunction(f)) == Some(f.id)
    ensures FieldToFunction(f).FieldValue? <==> f.id !in ExtractFieldMap
  {
    if f.id in ExtractFieldMap {
      ExtractFieldMapConsistent(f.id);
    }
  }

  /**
   * The checks made before the database is consulted: Ok(true) processes the
   * field, Ok(false) skips it; looking up the definition may itself raise.
   */
  function Admitted(p: Phenotype, f: FieldKey): (r: Result<bool>)
    ensures f == Snomed || f == Num(Config.Prescriptions) ==> r == Ok(false)
    ensures f !in DefinitionFields(p.doc.definitions) ==> r == Ok(false)
    ensures r == Ok(true) <==>
      f != Snomed && f != Num(Config.Prescriptions) && f in DefinitionFields(p.doc.definitions) &&
      GetFieldDefinition(p.doc.definitions, f).Ok? && GetFieldDefinition(p.doc.definitions, f).value.Some?
    ensures r.Err? ==> GetFieldDefinition(p.doc.definitions, f).Err? && r.error == GetFieldDefinition(p.doc.definitions, f).error
  {
    if f == Snomed || f == Num(Config.Prescriptions) then Ok(false)
    else if f !in DefinitionFields(p.doc.definitions) then Ok(false)
    else match GetFieldDefinition(p.doc.definitions, f)
      case Err(e) => Err(e)
      case Ok(None) => Ok(false)
      case Ok(Some(_)) => Ok(true)
  }

  /**
   * process_already_extracted on a table: whether to skip the field, and the
   * table afterwards.  A biomarker phenotype needs the biomarker helper class,
   * which is not available; a textual field id is refused by MySQL.
   */
  function AlreadyExtracted(table: seq<Event>, p: Phenotype, f: FieldKey, refresh: bool): Result<(bool, seq<Event>)>
  {
    if p.flags.isBiomarker then Err(Unsupported)
    else if !f.Num? then Err(SqlError)
    else if p.name in PhenotypesWithField(table, f.id) then
      if refresh then Ok((false, WithoutEntries(table, p.name, f.id))) else Ok((true, table))
    else Ok((false, table))
  }

  /**
   * The three outcomes of process_already_extracted: a pair with rows is
   * skipped without refresh, or has exactly its rows removed with refresh; a
   * pair without rows is processed and the table is left alone.
   */
  lemma AlreadyExtractedCases(table: seq<Event>, p: Phenotype, f: FieldKey, refresh: bool)
    ensures AlreadyExtracted(table, p, f, refresh).Ok? <==> !p.flags.isBiomarker && f.Num?
    ensures AlreadyExtracted(table, p, f, refresh).Ok? ==>
      var (skip, after) := AlreadyExtracted(table, p, f, refresh).value;
      (skip <==> !refresh && exists e :: e in table && e.phenotype == p.name && e.fieldId == f.id) &&
      (!refresh ==> after == table) &&
      (refresh ==> forall e :: e in after <==> e in table && !(e.phenotype == p.name && e.fieldId == f.id))
  {
    if !p.flags.isBiomarker && f.Num? {
      var present := exists e :: e in table && e.phenotype == p.name && e.fieldId == f.id;
      assert present <==> p.name in PhenotypesWithField(table, f.id);
      if refresh {
        forall e {
          DeleteRemovesExactlyThePair(table, p.name, f.id, e);
        }
      }
    }
  }

  /** process_already_extracted on the database. */
  method ProcessAlreadyExtracted(db: UkbDatabase, p: Phenotype, f: FieldKey, refresh: bool) returns (r: Result<bool>)
    modifies db
    ensures AlreadyExtracted(old(db.phenotypes), p, f, refresh).Err? ==>
      r == Err(AlreadyExtracted(old(db.phenotypes), p, f, refresh).error) && db.phenotypes == old(db.phenotypes)
    ensures AlreadyExtracted(old(db.phenotypes), p, f, refresh).Ok? ==>
      r == Ok(AlreadyExtracted(old(db.phenotypes), p, f, refresh).value.0) &&
      db.phenotypes == AlreadyExtracted(old(db.phenotypes), p, f, refresh).value.1
    ensures db.commits == old(db.commits)
  {
    if p.flags.isBiomarker {
      return Err(Unsupported);
    }
    var skip := false;
    var processed := db.GetPhenotypesByField(f);
    if processed.Err? {
      return Err(processed.error);
    }
    if p.name in processed.value {
      if refresh {
        var n := db.DeletePhenotypeEntriesByField(p.name, f.id);
      } else {
        skip := true;
      }
    }
    r := Ok(skip);
  }

  // ---------------------------------------------------------------------------
  // The run as a fold

  /** The table, the rows gathered in testing mode, and the exception that ended the run, if any. */
  datatype RunState = RunState(table: seq<Event>, fetched: seq<Event>, error: Option<Error>)

  /** One field of one phenotype. */
  function Step(s: RunState, src: Sources, stem: string, p: Phenotype, f: FieldKey, refresh: bool, testing: bool): RunState
  {
    if s.error.Some? then s
    else match Admitted(p, f)
      case Err(e) => s.(error := Some(e))
      case Ok(false) => s
      case Ok(true) =>
        var checked: Result<(bool, seq<Event>)> :=
          if testing then Ok((false, s.table)) else AlreadyExtracted(s.table, p, f, refresh);
        match checked
        case Err(e) => s.(error := Some(e))
        case Ok((skip, table)) =>
          if skip then s.(table := table)
          else match ExtractRows(FieldToFunction(f), stem, p, src)
            case Err(e) => RunState(table, s.fetched, Some(e))
            case Ok(rows) =>
              if testing then RunState(table, s.fetched + rows, None)
              else RunState(table + rows, s.fetched, None)
  }

  /** The fields of one phenotype, in order. */
  function FieldsRun(s: RunState, src: Sources, stem: string, p: Phenotype, fs: seq<FieldKey>, refresh: bool, testing: bool): RunState
    decreases |fs|
  {
    if |fs| == 0 then s
    else Step(FieldsRun(s, src, stem, p, fs[..|fs| - 1], refresh, testing), src, stem, p, fs[|fs| - 1], refresh, testing)
  }

  /** One stem: load the definition, skip a complex phenotype, run its fields. */
  function PhenotypeRun(s: RunState, files: map<string, Doc>, src: Sources, stem: string, fields: FieldsArg, refresh: bool, testing: bool): RunState
  {
    if s.error.Some? then s
    else match Load(files, stem)
      case Err(e) => s.(error := Some(e))
      case Ok(p) =>
        if p.flags.isComplex then s
        else FieldsRun(s, src, stem, p, FieldsToProcess(fields, DefinitionFields(p.doc.definitions)), refresh, testing)
  }

  /** All stems, in order. */
  function Run(s: RunState, files: map<string, Doc>, src: Sources, names: seq<string>, fields: FieldsArg, refresh: bool, testing: bool): RunState
    decreases |names|
  {
    if |names| == 0 then s
    else PhenotypeRun(Run(s, files, src, names[..|names| - 1], fields, refresh, testing), files, src, names[|names| - 1], fields, refresh, testing)
  }

  /** What extract_phenotypes hands back: the exception, the gathered rows in testing mode, None otherwise. */
  function Reported(s: RunState, testing: bool): Result<Option<seq<Event>>>
  {
    if s.error.Some? then Err(s.error.value)
    else if testing then Ok(Some(s.fetched))
    else Ok(None)
  }

  /** Once a field has raised, the later fields of the phenotype change nothing. */
  lemma {:induction false} FieldsStopAt(s: RunState, src: Sources, stem: string, p: Phenotype, fs: seq<FieldKey>, k: nat, refresh: bool, testing: bool)
    requires k <= |fs| && FieldsRun(s, src, stem, p, fs[..k], refresh, testing).error.Some?
    ensures FieldsRun(s, src, stem, p, fs, refresh, testing) == FieldsRun(s, src, stem, p, fs[..k], refresh, testing)
  {
    if k == |fs| {
      assert fs[..k] == fs;
    } else {
      var init := fs[..|fs| - 1];
      assert init[..k] == fs[..k];
      FieldsStopAt(s, src, stem, p, init, k, refresh, testing);
    }
  }

  /** Once a phenotype has raised, the later stems change nothing. */
  lemma {:induction false} RunStopsAt(s: RunState, files: map<string, Doc>, src: Sources, names: seq<string>, fields: FieldsArg, k: nat, refresh: bool, testing: bool)
    requires k <= |names| && Run(s, files, src, names[..k], fields, refresh, testing).error.Some?
    ensures Run(s, files, src, names, fields, refresh, testing) == Run(s, files, src, names[..k], fields, refresh, testing)
  {
    if k == |names| {
      assert names[..k] == names;
    } else {
      var init := names[..|names| - 1];
      assert init[..k] == names[..k];
      RunStopsAt(s, files, src, init, fields, k, refresh, testing);
    }
  }

  /**
   * The body of the field loop for one field: the static checks, the
   * already-extracted check outside testing mode, then the extractor.  It ends
   * with the step's exception, if any, which the caller re-raises.
   */
  method ProcessField(db: UkbDatabase, stem: string, p: Phenotype, f: FieldKey, refresh: bool, testing: bool, dfs: seq<Event>)
    returns (dfs': seq<Event>, err: Option<Error>)
    modifies db
    ensures Step(RunState(old(db.phenotypes), dfs, None), db.sources, stem, p, f, refresh, testing) == RunState(db.phenotypes, dfs', err)
    ensures db.commits == old(db.commits)
  {
    dfs' := dfs;
    err := None;
    if f == Snomed || f == Num(Config.Prescriptions) {
      return;
    }
    if f !in DefinitionFields(p.doc.definitions) {
      return;
    }
    var definition := GetFieldDefinition(p.doc.definitions, f);
    if definition.Err? {
      return dfs, Some(definition.error);
    }
    if definition.value.None? {
      return;
    }
    if !testing {
      var already := ProcessAlreadyExtracted(db, p, f, refresh);
      if already.Err? {
        return dfs, Some(already.error);
      }
      if already.value {
        return;
      }
    }
    var extractor := FieldToFunction(f);
    var n := db.Extract(extractor, stem, p, !testing);
    if n.Err? {
      return dfs, Some(n.error);
    }
    if testing {
      dfs' := dfs + n.value.rows;
    }
  }

  /** The field loop of one phenotype, stopping at the first exception. */
  method ExtractFields(db: UkbDatabase, stem: string, p: Phenotype, fs: seq<FieldKey>, refresh: bool, testing: bool, dfs: seq<Event>)
    returns (dfs': seq<Event>, err: Option<Error>)
    modifies db
    ensures FieldsRun(RunState(old(db.phenotypes), dfs, None), db.sources, stem, p, fs, refresh, testing) == RunState(db.phenotypes, dfs', err)
    ensures db.commits == old(db.commits)
  {
    ghost var before := RunState(db.phenotypes, dfs, None);
    dfs' := dfs;
    err := None;
    var j := 0;
    while j < |fs|
      invariant 0 <= j <= |fs|
      invariant FieldsRun(before, db.sources, stem, p, fs[..j], refresh, testing) == RunState(db.phenotypes, dfs', None)
      invariant err.None?
      invariant db.commits == old(db.commits)
    {
      assert fs[..j + 1][..j] == fs[..j];
      ghost var cur := RunState(db.phenotypes, dfs', None);
      dfs', err := ProcessField(db, stem, p, fs[j], refresh, testing, dfs');
      assert FieldsRun(before, db.sources, stem, p, fs[..j + 1], refresh, testing) == RunState(db.phenotypes, dfs', err) by {
        assert FieldsRun(before, db.sources, stem, p, fs[..j + 1], refresh, testing) ==
          Step(cur, db.sources, stem, p, fs[j], refresh, testing);
      }
      if err.Some? {
        FieldsStopAt(before, db.sources, stem, p, fs, j + 1, refresh, testing);
        return;
      }
      j := j + 1;
    }
    assert fs[..j] == fs;
  }

  /** One stem: load it, skip it when complex, otherwise run its fields. */
  method ExtractStem(db: UkbDatabase, files: map<string, Doc>, stem: string, fields: FieldsArg, refresh: bool, testing: bool, dfs: seq<Event>)
    returns (dfs': seq<Event>, err: Option<Error>)
    modifies db
    ensures PhenotypeRun(RunState(old(db.phenotypes), dfs, None), files, db.sources, stem, fields, refresh, testing) ==
      RunState(db.phenotypes, dfs', err)
    ensures db.commits == old(db.commits)
  {
    var loaded := Load(files, stem);
    if loaded.Err? {
      return dfs, Some(loaded.error);
    }
    var p := loaded.value;
    if p.flags.isComplex {
      return dfs, None;
    }
    var fs := FieldsToProcess(fields, DefinitionFields(p.doc.definitions));
    dfs', err := ExtractFields(db, stem, p, fs, refresh, testing, dfs);
  }

  /**
   * extract_phenotypes: the loop over stems.  Its effect on the table and its
   * result are those of the fold; it never commits.
   */
  method ExtractPhenotypes(db: UkbDatabase, files: map<string, Doc>, names: seq<string>, fields: FieldsArg, refresh: bool, testing: bool)
    returns (r: Result<Option<seq<Event>>>)
    modifies db
    ensures var s := Run(RunState(old(db.phenotypes), [], None), files, db.sources, names, fields, refresh, testing);
      db.phenotypes == s.table && r == Reported(s, testing)
    ensures db.commits == old(db.commits)
  {
    var dfs: seq<Event> := [];
    var err: Option<Error> := None;
    ghost var start := RunState(db.phenotypes, [], None);
    var i := 0;
    while i < |names| && err.None?
      invariant 0 <= i <= |names|
      invariant Run(start, files, db.sources, names[..i], fields, refresh, testing) == RunState(db.phenotypes, dfs, err)
      invariant db.commits == old(db.commits)
    {
      assert names[..i + 1][..i] == names[..i];
      ghost var cur := RunState(db.phenotypes, dfs, None);
      dfs, err := ExtractStem(db, files, names[i], fields, refresh, testing, dfs);
      assert Run(start, files, db.sources, names[..i + 1], fields, refresh, testing) ==
        PhenotypeRun(cur, files, db.sources, names[i], fields, refresh, testing);
      i := i + 1;
    }
    if err.Some? {
      RunStopsAt(start, files, db.sources, names, fields, i, refresh, testing);
    } else {
      assert names[..i] == names;
    }
    r := if err.Some? then Err(err.value) else if testing then Ok(Some(dfs)) else Ok(None);
  }

  // ---------------------------------------------------------------------------
  // main

  /** The integers of `-f` as field keys. */
  function CliFields(fields: Option<seq<int>>): FieldsArg
  {
    match fields
    case None => NoFields
    case Some(ids) => FieldList(seq(|ids|, k requires 0 <= k < |ids| => Num(ids[k])))
  }

  /** The stems of the catalogue's variable_name column; a non-text name cannot name a definition file. */
  function Stems(vs: seq<MetaValue>): (r: Result<seq<string>>)
    ensures r.Ok? ==> |r.value| == |vs| && forall k :: 0 <= k < |vs| ==> vs[k] == MStr(r.value[k])
    ensures r.Err? ==> r == Err(Unsupported) && exists k :: 0 <= k < |vs| && !vs[k].MStr?
  {
    if |vs| == 0 then Ok([])
    else match Stems(vs[..|vs| - 1])
      case Err(e) => Err(e)
      case Ok(init) =>
        if vs[|vs| - 1].MStr? then Ok(init + [vs[|vs| - 1].s]) else Err(Unsupported)
  }

  /**
   * The stems main processes: a given (truthy) -p must be a catalogued name
   * and is processed alone; otherwise every row of get_all_phenotypes() with
   * its default arguments.
   */
  function SelectedStems(c: Catalogue, phenotype: Option<string>): (r: Result<seq<string>>)
    reads c
    ensures phenotype.Some? && phenotype.value != "" ==>
      (r.Ok? <==> c.IsValidPhenotype(phenotype.value)) &&
      (r.Ok? ==> r.value == [phenotype.value]) && (r.Err? ==> r == Err(ValueError))
    ensures (phenotype.None? || phenotype.value == "") && r.Ok? ==>
      |r.value| == |c.data| && forall k :: 0 <= k < |c.data| ==> Field(c.data[k], "variable_name") == MStr(r.value[k])
  {
    if phenotype.Some? && phenotype.value != "" then
      if c.IsValidPhenotype(phenotype.value) then Ok([phenotype.value]) else Err(ValueError)
    else
      var all := c.GetAllPhenotypes(true, true, false, false).value;
      FilterAll(c.data, Keep(true, true));
      Stems(Names(all))
  }

  /**
   * main: choose the stems (an invalid -p raises before anything runs), run
   * the extraction, and commit when not testing.  With --testing and
   * --refresh together only an error is logged, so refresh has no effect in
   * testing mode.
   */
  method ExtractPhenotypeMain(db: UkbDatabase, files: map<string, Doc>, c: Catalogue, phenotype: Option<string>,
                              fields: Option<seq<int>>, refresh: bool, testing: bool)
    returns (r: Result<Option<seq<Event>>>)
    modifies db
    ensures SelectedStems(c, phenotype).Err? ==>
      r == Err(SelectedStems(c, phenotype).error) && db.phenotypes == old(db.phenotypes) && db.commits == old(db.commits)
    ensures SelectedStems(c, phenotype).Ok? ==>
      var s := Run(RunState(old(db.phenotypes), [], None), files, db.sources, SelectedStems(c, phenotype).value,
                   CliFields(fields), refresh, testing);
      db.phenotypes == s.table && r == Reported(s, testing) &&
      db.commits == old(db.commits) + (if !testing && s.error.None? then 1 else 0)
  {
    var stems := SelectedStems(c, phenotype);
    if stems.Err? {
      return Err(stems.error);
    }
    r := ExtractPhenotypes(db, files, stems.value, CliFields(fields), refresh, testing);
    if r.Ok? && !testing {
      db.Commit();
    }
  }

  // ---------------------------------------------------------------------------
  // Properties of the run

  /** Testing mode never consults process_already_extracted, so one step leaves the table alone. */
  lemma StepTestingKeepsTable(s: RunState, src: Sources, stem: string, p: Phenotype, f: FieldKey, refresh: bool)
    ensures Step(s, src, stem, p, f, refresh, true).table == s.table
  {
  }

  lemma {:induction false} FieldsRunTestingKeepsTable(s: RunState, src: Sources, stem: string, p: Phenotype, fs: seq<FieldKey>, refresh: bool)
    ensures FieldsRun(s, src, stem, p, fs, refresh, true).table == s.table
    decreases |fs|
  {
    if |fs| > 0 {
      FieldsRunTestingKeepsTable(s, src, stem, p, fs[..|fs| - 1], refresh);
      StepTestingKeepsTable(FieldsRun(s, src, stem, p, fs[..|fs| - 1], refresh, true), src, stem, p, fs[|fs| - 1], refresh);
    }
  }

  /** In testing mode the phenotypes table is neither written nor deleted from, whatever refresh says. */
  lemma {:induction false} TestingKeepsTable(s: RunState, files: map<string, Doc>, src: Sources, names: seq<string>, fields: FieldsArg, refresh: bool)
    ensures Run(s, files, src, names, fields, refresh, true).table == s.table
    decreases |names|
  {
    if |names| > 0 {
      var mid := Run(s, files, src, names[..|names| - 1], fields, refresh, true);
      TestingKeepsTable(s, files, src, names[..|names| - 1], fields, refresh);
      var stem := names[|names| - 1];
      if mid.error.None? && Load(files, stem).Ok? && !Load(files, stem).value.flags.isComplex {
        var p := Load(files, stem).value;
        FieldsRunTestingKeepsTable(mid, src, stem, p, FieldsToProcess(fields, DefinitionFields(p.doc.definitions)), refresh);
      }
    }
  }

  /** Outside testing mode nothing is gathered. */
  lemma {:induction false} InsertModeFetchesNothing(s: RunState, files: map<string, Doc>, src: Sources, names: seq<string>, fields: FieldsArg, refresh: bool)
    requires s.fetched == []
    ensures Run(s, files, src, names, fields, refresh, false).fetched == []
    ensures Reported(Run(s, files, src, names, fields, refresh, false), false).Ok? ==>
      Reported(Run(s, files, src, names, fields, refresh, false), false) == Ok(None)
    decreases |names|
  {
    if |names| > 0 {
      var mid := Run(s, files, src, names[..|names| - 1], fields, refresh, false);
      InsertModeFetchesNothing(s, files, src, names[..|names| - 1], fields, refresh);
      var stem := names[|names| - 1];
      if mid.error.None? && Load(files, stem).Ok? && !Load(files, stem).value.flags.isComplex {
        var p := Load(files, stem).value;
        FieldsRunInsertFetchesNothing(mid, src, stem, p, FieldsToProcess(fields, DefinitionFields(p.doc.definitions)), refresh);
      }
    }
  }

  lemma {:induction false} FieldsRunInsertFetchesNothing(s: RunState, src: Sources, stem: string, p: Phenotype, fs: seq<FieldKey>, refresh: bool)
    requires s.fetched == []
    ensures FieldsRun(s, src, stem, p, fs, refresh, false).fetched == []
    decreases |fs|
  {
    if |fs| > 0 {
      FieldsRunInsertFetchesNothing(s, src, stem, p, fs[..|fs| - 1], refresh);
    }
  }

  /**
   * With refresh, a processed pair's rows are replaced: afterwards the pair's
   * rows are exactly the freshly extracted ones, and every other row is kept.
   */
  lemma RefreshReplacesPair(s: RunState, src: Sources, stem: string, p: Phenotype, f: FieldKey)
    requires s.error.None? && p.name == stem
    requires Admitted(p, f) == Ok(true)
    requires Step(s, src, stem, p, f, true, false).error.None?
    ensures f.Num? && ExtractRows(FieldToFunction(f), stem, p, src).Ok?
    ensures forall e :: e in Step(s, src, stem, p, f, true, false).table <==>
      (e in s.table && !(e.phenotype == p.name && e.fieldId == f.id)) || e in ExtractRows(FieldToFunction(f), stem, p, src).value
    ensures forall e :: e in Step(s, src, stem, p, f, true, false).table && e.phenotype == p.name && e.fieldId == f.id <==>
      e in ExtractRows(FieldToFunction(f), stem, p, src).value
  {
    AlreadyExtractedCases(s.table, p, f, true);
    var after := AlreadyExtracted(s.table, p, f, true).value.1;
    var rows := ExtractRows(FieldToFunction(f), stem, p, src).value;
    ExtractRowsLabels(FieldToFunction(f), stem, p, src);
    FieldToFunctionWritesItsField(f);
    assert Step(s, src, stem, p, f, true, false).table == after + rows;
  }

  // ---------------------------------------------------------------------------
  // Idempotence of a non-refresh run

  /** Every row of a is a row of b. */
  predicate Grows(a: seq<Event>, b: seq<Event>) {
    forall e :: e in a ==> e in b
  }

  /** A field a non-refresh run would leave alone on table t: skipped statically, already present, or extracting nothing. */
  predicate Settled(t: seq<Event>, src: Sources, stem: string, p: Phenotype, f: FieldKey) {
    Admitted(p, f) == Ok(false) ||
    (Admitted(p, f) == Ok(true) && !p.flags.isBiomarker && f.Num? &&
     (p.name in PhenotypesWithField(t, f.id) || ExtractRows(FieldToFunction(f), stem, p, src) == Ok([])))
  }

  predicate FieldsSettled(t: seq<Event>, src: Sources, stem: string, p: Phenotype, fs: seq<FieldKey>) {
    forall k :: 0 <= k < |fs| ==> Settled(t, src, stem, p, fs[k])
  }

  predicate PhenotypeSettled(t: seq<Event>, files: map<string, Doc>, src: Sources, stem: string, fields: FieldsArg) {
    Load(files, stem).Ok? &&
    (Load(files, stem).value.flags.isComplex ||
     FieldsSettled(t, src, stem, Load(files, stem).value,
                   FieldsToProcess(fields, DefinitionFields(Load(files, stem).value.doc.definitions))))
  }

  predicate AllSettled(t: seq<Event>, files: map<string, Doc>, src: Sources, names: seq<string>, fields: FieldsArg) {
    forall k :: 0 <= k < |names| ==> PhenotypeSettled(t, files, src, names[k], fields)
  }

  /** Rows are only added without refresh, so a settled field stays settled. */
  lemma SettledGrows(t: seq<Event>, t': seq<Event>, src: Sources, stem: string, p: Phenotype, f: FieldKey)
    requires Grows(t, t') && Settled(t, src, stem, p, f)
    ensures Settled(t', src, stem, p, f)
  {
    if f.Num? && p.name in PhenotypesWithField(t, f.id) {
      var e :| e in t && e.fieldId == f.id && e.phenotype == p.name;
      assert e in t';
    }
  }

  lemma FieldsSettledGrows(t: seq<Event>, t': seq<Event>, src: Sources, stem: string, p: Phenotype, fs: seq<FieldKey>)
    requires Grows(t, t') && FieldsSettled(t, src, stem, p, fs)
    ensures FieldsSettled(t', src, stem, p, fs)
  {
    forall k | 0 <= k < |fs| ensures Settled(t', src, stem, p, fs[k]) {
      SettledGrows(t, t', src, stem, p, fs[k]);
    }
  }

  lemma AllSettledGrows(t: seq<Event>, t': seq<Event>, files: map<string, Doc>, src: Sources, names: seq<string>, fields: FieldsArg)
    requires Grows(t, t') && AllSettled(t, files, src, names, fields)
    ensures AllSettled(t', files, src, names, fields)
  {
    forall k | 0 <= k < |names| ensures PhenotypeSettled(t', files, src, names[k], fields) {
      var p := Load(files, names[k]).value;
      if !p.flags.isComplex {
        FieldsSettledGrows(t, t', src, names[k], p, FieldsToProcess(fields, DefinitionFields(p.doc.definitions)));
      }
    }
  }

  /** A successful non-refresh step only adds rows, and leaves its own field settled. */
  lemma StepSettles(s: RunState, src: Sources, stem: string, p: Phenotype, f: FieldKey)
    requires s.error.None? && p.name == stem
    requires Step(s, src, stem, p, f, false, false).error.None?
    ensures Grows(s.table, Step(s, src, stem, p, f, false, false).table)
    ensures Settled(Step(s, src, stem, p, f, false, false).table, src, stem, p, f)
  {
    var s' := Step(s, src, stem, p, f, false, false);
    if Admitted(p, f) == Ok(true) {
      if !(p.name in PhenotypesWithField(s.table, f.id)) {
        var rows := ExtractRows(FieldToFunction(f), stem, p, src).value;
        assert s'.table == s.table + rows;
        if rows != [] {
          ExtractRowsLabels(FieldToFunction(f), stem, p, src);
          FieldToFunctionWritesItsField(f);
          assert rows[0] in s'.table;
        }
      }
    }
  }

  lemma {:induction false} FieldsRunSettles(s: RunState, src: Sources, stem: string, p: Phenotype, fs: seq<FieldKey>)
    requires s.error.None? && p.name == stem
    requires FieldsRun(s, src, stem, p, fs, false, false).error.None?
    ensures Grows(s.table, FieldsRun(s, src, stem, p, fs, false, false).table)
    ensures FieldsSettled(FieldsRun(s, src, stem, p, fs, false, false).table, src, stem, p, fs)
    decreases |fs|
  {
    if |fs| > 0 {
      var init := fs[..|fs| - 1];
      var mid := FieldsRun(s, src, stem, p, init, false, false);
      var last := FieldsRun(s, src, stem, p, fs, false, false);
      assert mid.error.None?;
      FieldsRunSettles(s, src, stem, p, init);
      StepSettles(mid, src, stem, p, fs[|fs| - 1]);
      FieldsSettledGrows(mid.table, last.table, src, stem, p, init);
      forall k | 0 <= k < |fs| ensures Settled(last.table, src, stem, p, fs[k]) {
        if k < |fs| - 1 {
          assert fs[k] == init[k];
        }
      }
    }
  }

  /** A successful non-refresh stem only adds rows, and leaves its own fields settled. */
  lemma PhenotypeRunSettles(s: RunState, files: map<string, Doc>, src: Sources, stem: string, fields: FieldsArg)
    requires s.error.None?
    requires Load(files, stem).Ok? ==> Load(files, stem).value.name == stem
    requires PhenotypeRun(s, files, src, stem, fields, false, false).error.None?
    ensures Grows(s.table, PhenotypeRun(s, files, src, stem, fields, false, false).table)
    ensures PhenotypeSettled(PhenotypeRun(s, files, src, stem, fields, false, false).table, files, src, stem, fields)
  {
    var p := Load(files, stem).value;
    if !p.flags.isComplex {
      FieldsRunSettles(s, src, stem, p, FieldsToProcess(fields, DefinitionFields(p.doc.definitions)));
    }
  }

  /** Every stem that loads declares itself, as variable_name, under its own name. */
  predicate NamedAsStems(files: map<string, Doc>, names: seq<string>) {
    forall k :: 0 <= k < |names| && Load(files, names[k]).Ok? ==> Load(files, names[k]).value.name == names[k]
  }

  lemma NamedAsStemsSplit(files: map<string, Doc>, names: seq<string>)
    requires |names| > 0 && NamedAsStems(files, names)
    ensures NamedAsStems(files, names[..|names| - 1])
    ensures Load(files, names[|names| - 1]).Ok? ==> Load(files, names[|names| - 1]).value.name == names[|names| - 1]
  {
    var init := names[..|names| - 1];
    assert forall k :: 0 <= k < |init| ==> init[k] == names[k];
  }

  lemma GrowsTransitive(a: seq<Event>, b: seq<Event>, c: seq<Event>)
    requires Grows(a, b) && Grows(b, c)
    ensures Grows(a, c)
  { }

  /** A successful non-refresh run only adds rows, and leaves every field of every stem settled. */
  lemma {:induction false} RunSettles(s: RunState, files: map<string, Doc>, src: Sources, names: seq<string>, fields: FieldsArg)
    requires s.error.None?
    requires NamedAsStems(files, names)
    requires Run(s, files, src, names, fields, false, false).error.None?
    ensures Grows(s.table, Run(s, files, src, names, fields, false, false).table)
    ensures AllSettled(Run(s, files, src, names, fields, false, false).table, files, src, names, fields)
    decreases |names|
  {
    if |names| > 0 {
      var init := names[..|names| - 1];
      var stem := names[|names| - 1];
      var mid := Run(s, files, src, init, fields, false, false);
      var last := Run(s, files, src, names, fields, false, false);
      assert last == PhenotypeRun(mid, files, src, stem, fields, false, false);
      assert mid.error.None?;
      NamedAsStemsSplit(files, names);
      RunSettles(s, files, src, init, fields);
      PhenotypeRunSettles(mid, files, src, stem, fields);
      GrowsTransitive(s.table, mid.table, last.table);
      AllSettledGrows(mid.table, last.table, files, src, init, fields);
      AllSettledSnoc(last.table, files, src, names, fields);
    }
  }

  lemma AllSettledSnoc(t: seq<Event>, files: map<string, Doc>, src: Sources, names: seq<string>, fields: FieldsArg)
    requires |names| > 0 && AllSettled(t, files, src, names[..|names| - 1], fields)
    requires PhenotypeSettled(t, files, src, names[|names| - 1], fields)
    ensures AllSettled(t, files, src, names, fields)
  {
    forall k | 0 <= k < |names| - 1 ensures PhenotypeSettled(t, files, src, names[k], fields) {
      assert names[..|names| - 1][k] == names[k];
    }
  }

  /** A settled field changes nothing. */
  lemma StepQuiet(t: seq<Event>, src: Sources, stem: string, p: Phenotype, f: FieldKey)
    requires Settled(t, src, stem, p, f)
    ensures Step(RunState(t, [], None), src, stem, p, f, false, false) == RunState(t, [], None)
  {
    assert t + [] == t;
  }

  lemma {:induction false} FieldsRunQuiet(t: seq<Event>, src: Sources, stem: string, p: Phenotype, fs: seq<FieldKey>)
    requires FieldsSettled(t, src, stem, p, fs)
    ensures FieldsRun(RunState(t, [], None), src, stem, p, fs, false, false) == RunState(t, [], None)
    decreases |fs|
  {
    if |fs| > 0 {
      var init := fs[..|fs| - 1];
      assert forall k :: 0 <= k < |init| ==> init[k] == fs[k];
      FieldsRunQuiet(t, src, stem, p, init);
      StepQuiet(t, src, stem, p, fs[|fs| - 1]);
    }
  }

  lemma {:induction false} RunQuiet(t: seq<Event>, files: map<string, Doc>, src: Sources, names: seq<string>, fields: FieldsArg)
    requires AllSettled(t, files, src, names, fields)
    ensures Run(RunState(t, [], None), files, src, names, fields, false, false) == RunState(t, [], None)
    decreases |names|
  {
    if |names| > 0 {
      var init := names[..|names| - 1];
      assert forall k :: 0 <= k < |init| ==> init[k] == names[k];
      RunQuiet(t, files, src, init, fields);
      var stem := names[|names| - 1];
      assert PhenotypeSettled(t, files, src, stem, fields);
      var p := Load(files, stem).value;
      if !p.flags.isComplex {
        FieldsRunQuiet(t, src, stem, p, FieldsToProcess(fields, DefinitionFields(p.doc.definitions)));
      }
    }
  }

  /**
   * Extraction without refresh is idempotent: when every stem's variable_name
   * is the stem itself, running the same extraction again after a successful
   * run raises nothing and leaves the table as it is.
   */
  lemma ExtractionIdempotent(t: seq<Event>, files: map<string, Doc>, src: Sources, names: seq<string>, fields: FieldsArg)
    requires NamedAsStems(files, names)
    requires Run(RunState(t, [], None), files, src, names, fields, false, false).error.None?
    ensures var t1 := Run(RunState(t, [], None), files, src, names, fields, false, false).table;
      Run(RunState(t1, [], None), files, src, names, fields, false, false) == RunState(t1, [], None)
    ensures Grows(t, Run(RunState(t, [], None), files, src, names, fields, false, false).table)
  {
    RunSettles(RunState(t, [], None), files, src, names, fields);
    InsertModeFetchesNothing(RunState(t, [], None), files, src, names, fields, false);
    RunQuiet(Run(RunState(t, [], None), files, src, names, fields, false, false).table, files, src, names, fields);
  }
}
