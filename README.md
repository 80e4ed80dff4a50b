# pomegranate phenotype extraction, modelled in Dafny

pomegranate is the UK Biobank phenotyping ETL. A phenotype is defined by one
YAML document. The document lists codes per UK Biobank source field:

- self-report fields 20001/20002/20004;
- hospital diagnoses and procedures 41202/41204/41200/41210;
- mortality fields 40001/40002;
- primary care 42040;
- the cancer registry 40006;
- baseline fields with an age or baseline time qualifier.

The extraction driver walks every phenotype of the catalogue and every field of
its definition. It decides, per (phenotype, field) pair, whether to skip, to
delete and re-extract, or to extract for the first time. It then runs the
field's extractor against the source tables, and either inserts the resulting
events into the `phenotypes` table or returns them (testing mode). Around
this core sit the following pieces:

- the date utilities that clean placeholder dates and select first events;
- the two ops scripts that load and transpose the wide baseline CSV;
- the SQL scripts that build `baseline_cohort`, repair `gp_registrations`,
  aggregate `phenotype_first` and join `cohort_phenotype_first`.

One Dafny module per source file:

| module | file | form |
|---|---|---|
| `Common` | shared | values: options, results, dates, splitting, filters and joins over sequences |
| `Config` | `etl_config.py`, `phenotype_config.py` | constants |
| `Helpers` | `helpers.py` | functions |
| `PhenotypeModel` | `phenotype.py` | a datatype built once by `Load`; the two list-building loops are methods proved equal to their functions |
| `CatalogueModel` | `catalogue.py` | class `Catalogue` over a `seq` of records; construction is a loop method |
| `Extraction` | `db/ukbdb.py` (row semantics) | one function per SELECT, with membership lemmas |
| `Database` | `db/ukbdb.py` (state) | class `UkbDatabase` whose `phenotypes` table the methods change |
| `ExtractDriver` | `cli/etl/extract_phenotype.py` | methods over the database object, proved against a fold (`Run`) |
| `Dates` | `dates.py` | functions and methods |
| `BaselineLoader`, `Transpose` | `scripts/bin/ops/*.py` | loop methods proved against left-recursive functions |
| `PhenotypeFirstTable`, `BaselineCohort`, `GpRegistrations`, `CohortPhenotypeFirst` | `db/schemas/*.py` | aggregations as functions; UPDATE statements as in-place methods on arrays |

The model runs no SQL. Each statement becomes a function over `seq`s of rows,
and the row order is the order of the source table. Texts are `seq<char>` and
dates are `Date(year, month, day)` values. Python exceptions become `Err`
results named after the exception.

## Notes on the source

- `get_values_for_field` filters the code entries on the literal `type` tag it
  is given, `"any"` by default.
- A phenotype with no standard, non-empty field does not load: `pd.concat([])`
  raises `ValueError`.
- `extract_field_value` accepts only the `age` and `baseline` time qualifiers;
  any other qualifier fails its assertion.

## Model

| member | source | states |
|---|---|---|
| PhenotypeModel.DefinitionFields | code/pomegranate/phenotype.py:116-132 | specified by DefinitionFieldsMembership and DefinitionFieldsRules |
| PhenotypeModel.DefinitionFieldsMembership | code/pomegranate/phenotype.py:116-132 | a key is reported exactly when it is a definition key that is not "limits" and is "baseline_fields" or has codes |
| PhenotypeModel.DefinitionFieldsRules | code/pomegranate/phenotype.py:116-132 | "limits" is never reported; "baseline_fields" is reported whenever present, because the `baseline` argument is overwritten; any other key only when its values are non-empty |
| PhenotypeModel.GetDefinitionFields | code/pomegranate/phenotype.py:104-132 | the loop returns DefinitionFields, in definition order, whatever `baseline` is |
| PhenotypeModel.GetFieldDefinition | code/pomegranate/phenotype.py:134-148 | int() conversion fails exactly when DefinitionKey fails; the stored definition is returned exactly for a reported key, None otherwise |
| PhenotypeModel.FieldDefinitionNonEmpty | code/pomegranate/phenotype.py:140-148 | for a numeric field the result is None or a definition with at least one code |
| PhenotypeModel.NormalizeCode | code/pomegranate/phenotype.py:179-188 | a primary-care (42040) code becomes its first five characters, or stays whole when shorter; any other code becomes the code with every '.' removed, its characters otherwise kept in order; a code without '.' is kept |
| PhenotypeModel.NormalizeIcd10Example | code/pomegranate/phenotype.py:183-188 | the worked example of the source: ICD-10 I44.0 becomes I440 |
| PhenotypeModel.NormalizeReadExample | code/pomegranate/phenotype.py:179-186 | a primary-care Read code XaIP9.00 keeps its first five characters, XaIP9 |
| PhenotypeModel.SelectCodesMembership | code/pomegranate/phenotype.py:177-188 | a code is selected exactly when some entry whose type equals the tag normalises to it |
| PhenotypeModel.SelectCodes | code/pomegranate/phenotype.py:177-188 | specified by SelectCodesInOrder, SelectCodesMembership and PrevalencePartition |
| PhenotypeModel.SelectCodesInOrder | code/pomegranate/phenotype.py:177-188 | the selection is, in definition order, the normalised code of each entry whose type equals the tag: one code per tagged entry |
| PhenotypeModel.PrevalencePartition | code/pomegranate/phenotype.py:177 | when every entry is tagged "any" or "prevalent", the two selections together have exactly one code per entry |
| PhenotypeModel.GetValuesForField | code/pomegranate/phenotype.py:157-190 | None for "baseline_fields"/"limits"; KeyError for a missing key, ValueError for a non-integer id; otherwise, in definition order, the normalised code of each entry with the requested type |
| PhenotypeModel.GetAgeFieldId | code/pomegranate/phenotype.py:192-199 | an "age" time qualifier with a field_id gives exactly that id, and every returned id is one; an unreported field fails with TypeError (None is subscripted), missing metadata or field_id with KeyError, a missing or non-"age" qualifier with AssertionError, and a lookup error propagates |
| PhenotypeModel.InitFlags | code/pomegranate/phenotype.py:76-93 | biomarker iff the name is one of the four; complex iff `complex_logic` is a key; cancer iff is_cancer is present and int() of it is not 0; a bad is_cancer is the only failure |
| PhenotypeModel.CancerFlagFromText | code/pomegranate/phenotype.py:82-85 | an is_cancer text "v" loads and makes the phenotype a cancer phenotype exactly when v != 0 |
| PhenotypeModel.OntologyCodesMembership | code/pomegranate/phenotype.py:211-222 | a code is in an ontology's list exactly when an entry of that ontology carries it |
| PhenotypeModel.OntologyPartition | code/pomegranate/phenotype.py:211-213 | the three lists together hold one code per bnf/dmd/welsh_read entry; other ontologies are dropped |
| PhenotypeModel.GetPrescriptionValues | code/pomegranate/phenotype.py:201-225 | None iff field 42039 is absent or empty; KeyError iff an entry has no ontology; otherwise the bnf, dmd and welsh_read codes in order |
| PhenotypeModel.InitPrescriptions | code/pomegranate/phenotype.py:95-102 | the three lists keyed exactly "bnf", "dmd", "welsh_read", or None when there are no prescription codes |
| PhenotypeModel.FramesEmpty | code/pomegranate/phenotype.py:58-72 | no frame is built exactly when no definition is a standard field with codes |
| PhenotypeModel.CodesTable | code/pomegranate/phenotype.py:55-74 | specified by CodesTableRows and CodesTableStandard |
| PhenotypeModel.CodesTableRows | code/pomegranate/phenotype.py:55-74 | a row is in codes_df exactly when it is the row of a code of a standard, non-empty field, tagged with that field |
| PhenotypeModel.CodesTableStandard | code/pomegranate/phenotype.py:55-74 | codes_df names only standard fields, and pd.concat fails exactly when there is no frame |
| PhenotypeModel.GetCodesDf | code/pomegranate/phenotype.py:55-74 | the loop builds exactly CodesTable |
| PhenotypeModel.Load | code/pomegranate/phenotype.py:26-53 | PHENOTYPE_NOT_FOUND exactly for a missing file; a missing variable_name raises KeyError; a loaded phenotype holds the document, its name and the prescriptions, flags and codes_df computed from it |
| CatalogueModel.RecordOf | code/pomegranate/catalogue.py:50-58 | KeyError exactly when a required metadata key is missing; otherwise a record with exactly the required and optional keys, required values copied, optional values copied or null |
| CatalogueModel.RowFor | code/pomegranate/catalogue.py:48-58 | an unknown stem fails with PHENOTYPE_NOT_FOUND; a row is the record of the loaded phenotype's metadata |
| CatalogueModel.CatalogueRecords | code/pomegranate/catalogue.py:47-61 | a successful load has one record per .yaml file |
| CatalogueModel.CatalogueRecordsRow | code/pomegranate/catalogue.py:48-59 | record i is the row built for file i, in listing order |
| CatalogueModel.CatalogueRecordsFailure | code/pomegranate/catalogue.py:48-49 | a listed stem without a definition makes the whole construction fail |
| CatalogueModel.CatalogueRecordsSticky | code/pomegranate/catalogue.py:48-59 | a failure on a prefix of the listing makes the whole construction fail |
| CatalogueModel.NamesOfFilter | code/pomegranate/catalogue.py:82 | a name is in the variable_name column of a filtered frame exactly when a kept record carries it |
| CatalogueModel.FirstNamed | code/pomegranate/catalogue.py:145-147 | the first record with the given variable_name, None exactly when no record has it |
| CatalogueModel.Catalogue.constructor | code/pomegranate/catalogue.py:61 | the catalogue holds exactly the given records |
| CatalogueModel.Catalogue.GetCategories | code/pomegranate/catalogue.py:70-75 | a group value is listed exactly when some record has it |
| CatalogueModel.Catalogue.GetPhenotypesByCategory | code/pomegranate/catalogue.py:77-82 | the names of the category's records, in catalogue order (the names of the filtered records), and a name is listed exactly when some record of the category carries it |
| CatalogueModel.Catalogue.IsValidPhenotype | code/pomegranate/catalogue.py:84-93 | true exactly when some record's variable_name equals the argument |
| CatalogueModel.Catalogue.GetAllPhenotypes | code/pomegranate/catalogue.py:95-137 | include_elix or include_complex raises NotImplementedError; otherwise the records kept by the cancer (is_cancer == "0") and neonatal (is_adult == "1") filters, in order |
| CatalogueModel.AllPhenotypesMembership | code/pomegranate/catalogue.py:123-129 | a record is returned exactly when it is in the catalogue and passes each disabled filter; the catalogue itself is unchanged |
| CatalogueModel.Catalogue.GetPhenotype | code/pomegranate/catalogue.py:139-147 | the first record with that variable_name; an unknown name raises IndexError |
| CatalogueModel.Catalogue.GetComplexPhenotypes | code/pomegranate/catalogue.py:149-155 | KeyError exactly for an empty catalogue, whose frame lacks the optional complex_logic column (catalogue.py:46); otherwise the names of the records whose complex_logic is not null, in catalogue order, one per record |
| CatalogueModel.LoadCatalogue | code/pomegranate/catalogue.py:31-61 | the construction loop fails exactly when CatalogueRecords fails, and otherwise holds exactly its records |
| ExtractDriver.FieldsToProcess | code/pomegranate/cli/etl/extract_phenotype.py:95-101 | specified by FieldsToProcessOrigin |
| ExtractDriver.FieldsToProcessOrigin | code/pomegranate/cli/etl/extract_phenotype.py:95-101 | every processed field is a definition field or one the caller named; no fields, an empty list or a falsy single field mean the definition fields |
| ExtractDriver.FieldToFunction | code/pomegranate/cli/etl/extract_phenotype.py:20-29 | specified by FieldToFunctionWritesItsField |
| ExtractDriver.FieldToFunctionWritesItsField | code/pomegranate/cli/etl/extract_phenotype.py:20-29 | the chosen extractor writes rows of the requested field; it is extract_field_value exactly when the field is not in extract_field_map |
| ExtractDriver.Admitted | code/pomegranate/cli/etl/extract_phenotype.py:103-123 | "SNOMED-CT", 42039 and fields outside the definition fields are skipped; a field is extracted exactly when it is none of these and has a definition; a failing int() propagates |
| ExtractDriver.AlreadyExtracted | code/pomegranate/cli/etl/extract_phenotype.py:32-61 | specified by AlreadyExtractedCases |
| ExtractDriver.AlreadyExtractedCases | code/pomegranate/cli/etl/extract_phenotype.py:32-61 | skip exactly when not refreshing and the phenotype already has rows for the field; without refresh nothing is deleted; with refresh exactly that (phenotype, field) is deleted |
| ExtractDriver.ProcessAlreadyExtracted | code/pomegranate/cli/etl/extract_phenotype.py:32-61 | the method returns the skip flag and leaves the table AlreadyExtracted describes, without committing |
| ExtractDriver.FieldsStopAt | code/pomegranate/cli/etl/extract_phenotype.py:103-146 | an exception on one field ends the field loop: later fields change nothing |
| ExtractDriver.Run | code/pomegranate/cli/etl/extract_phenotype.py:87-147 | specified by RunStopsAt, RunSettles, RunQuiet and TestingKeepsTable |
| ExtractDriver.RunStopsAt | code/pomegranate/cli/etl/extract_phenotype.py:87-147 | an exception on one phenotype ends the whole run |
| ExtractDriver.ProcessField | code/pomegranate/cli/etl/extract_phenotype.py:103-146 | one iteration of the field loop performs exactly Step on the table and the testing accumulator |
| ExtractDriver.ExtractFields | code/pomegranate/cli/etl/extract_phenotype.py:103-146 | the field loop performs exactly FieldsRun |
| ExtractDriver.ExtractStem | code/pomegranate/cli/etl/extract_phenotype.py:88-147 | one phenotype: load, skip if complex, select fields, run the field loop, exactly as PhenotypeRun |
| ExtractDriver.ExtractPhenotypes | code/pomegranate/cli/etl/extract_phenotype.py:64-149 | the whole loop leaves the table Run describes and returns the accumulated rows in testing mode, None otherwise; it never commits |
| ExtractDriver.Stems | code/pomegranate/cli/etl/extract_phenotype.py:197 | the variable_name column as texts, in catalogue order |
| ExtractDriver.SelectedStems | code/pomegranate/cli/etl/extract_phenotype.py:189-197 | a named phenotype is processed alone when valid and raises ValueError otherwise; without one, every catalogue name in order |
| ExtractDriver.ExtractPhenotypeMain | code/pomegranate/cli/etl/extract_phenotype.py:179-204 | an invalid -p fails before any extraction; otherwise the run happens and exactly one commit follows, only outside testing and only when the run ends normally |
| ExtractDriver.StepTestingKeepsTable | code/pomegranate/cli/etl/extract_phenotype.py:125-146 | in testing mode one field leaves the table unchanged |
| ExtractDriver.FieldsRunTestingKeepsTable | code/pomegranate/cli/etl/extract_phenotype.py:84-146 | in testing mode the field loop leaves the table unchanged |
| ExtractDriver.TestingKeepsTable | code/pomegranate/cli/etl/extract_phenotype.py:84-149 | in testing mode nothing is checked, deleted or inserted |
| ExtractDriver.InsertModeFetchesNothing | code/pomegranate/cli/etl/extract_phenotype.py:138-149 | outside testing nothing is accumulated and the result is None |
| ExtractDriver.FieldsRunInsertFetchesNothing | code/pomegranate/cli/etl/extract_phenotype.py:138-146 | outside testing the field loop accumulates nothing |
| ExtractDriver.RefreshReplacesPair | code/pomegranate/cli/etl/extract_phenotype.py:125-137 | with refresh an admitted field's old rows for the phenotype are replaced by exactly the freshly extracted rows; other rows are kept |
| ExtractDriver.SettledGrows | code/pomegranate/cli/etl/extract_phenotype.py:125-129 | a field that would be skipped stays skipped when rows are only added |
| ExtractDriver.FieldsSettledGrows | code/pomegranate/cli/etl/extract_phenotype.py:125-129 | the same for every field of a phenotype |
| ExtractDriver.AllSettledGrows | code/pomegranate/cli/etl/extract_phenotype.py:125-129 | the same for every phenotype of a run |
| ExtractDriver.StepSettles | code/pomegranate/cli/etl/extract_phenotype.py:125-137 | without refresh, one field only adds rows and leaves the field skipped for the next run |
| ExtractDriver.FieldsRunSettles | code/pomegranate/cli/etl/extract_phenotype.py:103-146 | the same for the whole field loop |
| ExtractDriver.PhenotypeRunSettles | code/pomegranate/cli/etl/extract_phenotype.py:88-147 | the same for one phenotype, complex phenotypes included |
| ExtractDriver.RunSettles | code/pomegranate/cli/etl/extract_phenotype.py:87-147 | the same for the whole run |
| ExtractDriver.StepQuiet | code/pomegranate/cli/etl/extract_phenotype.py:125-129 | a settled field changes nothing |
| ExtractDriver.FieldsRunQuiet | code/pomegranate/cli/etl/extract_phenotype.py:103-129 | a phenotype whose fields are all settled changes nothing |
| ExtractDriver.RunQuiet | code/pomegranate/cli/etl/extract_phenotype.py:87-129 | a run whose phenotypes are all settled changes nothing |
| ExtractDriver.ExtractionIdempotent | code/pomegranate/cli/etl/extract_phenotype.py:125-129 | outside testing and without refresh, a second run after a successful one adds no rows and deletes none, and the first run only adds rows |
| Extraction.RegexEmptyListMatchesAll | code/pomegranate/db/ukbdb.py:366-378 | as written, `REGEXP '^()'` from an empty code list matches every value |
| Extraction.PrefixMatchEmptyList | code/pomegranate/db/ukbdb.py:366-378 | the intended prefix match selects nothing for an empty code list |
| Extraction.RegexAgreesOnNonEmptyList | code/pomegranate/db/ukbdb.py:565-569 | for a non-empty list of codes without '\|', the anchored alternation matches exactly when some code is a prefix of the value |
| Extraction.DateQualifiedRows | code/pomegranate/db/ukbdb.py:216-251 | an empty value list renders `IN ()`, which MySQL refuses: error exactly then |
| Extraction.DateQualifiedMembership | code/pomegranate/db/ukbdb.py:216-251 | a row comes from a baseline row of the field whose value is listed; its date is Jan 1 of the rounded paired value at the same (eid, i, n) when positive, the sentinel otherwise or when no paired row exists |
| Extraction.DateQualifiedDates | code/pomegranate/db/ukbdb.py:226-236 | every date is the 1900-01-01 sentinel or a 1 January of a positive year; phenotype, field and value are the requested ones |
| Extraction.DateQualifiedOnePerValue | code/pomegranate/db/ukbdb.py:239-249 | when the paired field has at most one row per (eid, i, n), the LEFT JOIN yields exactly one row per selected value |
| Extraction.AgeQualifiedRows | code/pomegranate/db/ukbdb.py:253-302 | an empty value list is an SQL error, and only then; the rows are specified by AgeQualifiedMembership and AgeQualifiedComplete |
| Extraction.AgeQualifiedDates | code/pomegranate/db/ukbdb.py:253-302 | rows come from listed values of the field; the date is AgeDate of the age record at the value's (eid, i, n) and the field-34 record at i=0, n=0 (each NULL when absent): 1 January of age + birth year for a positive age, the sentinel otherwise, NULL when a positive age has no birth year |
| Extraction.AgeQualifiedMembership | code/pomegranate/db/ukbdb.py:253-302 | a row exists exactly for a listed value of the field, an age partner at its (eid, i, n) and a field-34 partner at i=0, n=0 (a partner is a matching record, or NULL when none matches), dated by AgeDate of the two |
| Extraction.AgeQualifiedComplete | code/pomegranate/db/ukbdb.py:253-302 | every listed value of the field yields a row for each pair of join partners, so at least one row |
| Extraction.AgePairOrigin | code/pomegranate/db/ukbdb.py:287-298 | each (value, age) pair starts from a baseline row of the field with a listed value |
| Extraction.BaselineQualifiedRows | code/pomegranate/db/ukbdb.py:177-214 | an empty value list is an SQL error, and only then; the rows are specified by BaselineQualifiedMembership and BaselineQualifiedComplete |
| Extraction.BaselineQualifiedDates | code/pomegranate/db/ukbdb.py:177-214 | rows carry the requested phenotype, field and a listed value; a date is the parsed field-53 value at i=0, n=0 of the same eid; NULL only when there is no such record or one whose value does not parse |
| Extraction.BaselineQualifiedMembership | code/pomegranate/db/ukbdb.py:177-214 | a row exists exactly for a listed value of the field and a field-53 partner at i=0, n=0 of its eid, dated STR_TO_DATE of that record, NULL when there is none |
| Extraction.BaselineQualifiedComplete | code/pomegranate/db/ukbdb.py:177-214 | every listed value of the field yields a row dated by each field-53 record at i=0, n=0 of its eid, and an undated row when there is none |
| Extraction.CancerRegistryRows | code/pomegranate/db/ukbdb.py:332-378 | specified by CancerRegistryMembership |
| Extraction.CancerRegistryMembership | code/pomegranate/db/ukbdb.py:332-378 | a row exists exactly for a field-40006 value with a listed code prefix and a field-40005 partner at the same (eid, i, n), dated by that record's text read as an ISO date (NULL when there is none); the iff holds of the corrected empty-list reading, and the raw-text date is not modelled (see Left out) |
| Extraction.HospitalDiagnosisRows | code/pomegranate/db/ukbdb.py:508-634 | specified by HospitalDiagnosisMembership and HospitalDiagnosisDates |
| Extraction.HospitalDiagnosisMembership | code/pomegranate/db/ukbdb.py:508-634 | a row exists exactly for a hesin/hesin_diag pair joined on (eid, ins_index) at the given level whose ICD-10 code has a listed prefix |
| Extraction.HospitalDiagnosisDates | code/pomegranate/db/ukbdb.py:536-545 | the prevalent pass dates rows 1900-01-01; otherwise admidate when present, else epistart |
| Extraction.ProcedureRows | code/pomegranate/db/ukbdb.py:636-758 | specified by ProcedureMembership |
| Extraction.ProcedureMembership | code/pomegranate/db/ukbdb.py:636-758 | a row exists exactly for a hesin/hesin_oper pair at the level whose oper4 has a listed prefix; it is always dated (opdate, admidate, epistart, then the sentinel); the iff holds of the corrected empty-list reading (see Left out) |
| Extraction.MortalityRows | code/pomegranate/db/ukbdb.py:760-828 | specified by MortalityMembership |
| Extraction.MortalityMembership | code/pomegranate/db/ukbdb.py:760-828 | a row exists exactly for a death/death_cause pair of one eid at the level whose cause has a listed prefix, dated by date_of_death; the iff holds of the corrected empty-list reading (see Left out) |
| Extraction.PrimaryCareRows | code/pomegranate/db/ukbdb.py:869-949 | an empty code list is an SQL error, and only then |
| Extraction.PrimaryCareMembership | code/pomegranate/db/ukbdb.py:869-949 | a row exists exactly for a gp_clinical row whose read code is listed; prevalent rows carry the sentinel date |
| Extraction.ExtractFieldMapConsistent | code/pomegranate/db/ukbdb.py:18-30 | the extractor registered for a field writes rows of that field |
| Extraction.CodesFor | code/pomegranate/phenotype.py:157-190 | the code list of a field and tag is what get_values_for_field returns, failing when it fails or finds no definition |
| Extraction.TwoPass | code/pomegranate/db/ukbdb.py:449-506 | an event is returned exactly when the incident pass (run only on a non-empty "any" list) or the prevalent pass (likewise) returns it; with both lists empty nothing is returned |
| Extraction.CodesForTagIndependent | code/pomegranate/db/ukbdb.py:458-468 | whether the incident lookup succeeds does not depend on the tag, so the prevalent lookup succeeds with it |
| Extraction.ExtractFieldValue | code/pomegranate/db/ukbdb.py:153-175 | success needs a numeric field whose definition has a time_qualifier of type "age" or "baseline" |
| Extraction.ExtractFieldValueRejectsOtherQualifier | code/pomegranate/db/ukbdb.py:160-162 | any other time_qualifier type, "year" included, fails the assertion |
| Extraction.TwoPassLabels | code/pomegranate/db/ukbdb.py:449-506 | when both passes label their rows with the phenotype and field, so does their concatenation |
| Extraction.ExtractRows | code/pomegranate/db/ukbdb.py:18-30 | specified by ExtractRowsLabels |
| Extraction.ExtractRowsLabels | code/pomegranate/db/ukbdb.py:18-30 | every row any extractor returns carries the requested phenotype and the extractor's field |
| Extraction.ListToSql | code/pomegranate/db/ukbdb.py:32-34 | an empty list renders "()"; every rendering is parenthesised |
| Extraction.ListToSqlRoundTrip | code/pomegranate/db/ukbdb.py:32-34 | for items without ',' the quoted list reads back to the same items |
| Database.CombineOutcomes | code/pomegranate/db/ukbdb.py:454-506 | `n += ...` over two passes equals running their rows at once, in both modes |
| Database.WhereAfterFieldClause | code/pomegranate/db/ukbdb.py:99-106 | the `"WHERE" in sql` test holds exactly when the field filter was added |
| Database.InsertStatementAsWritten | code/pomegranate/db/ukbdb.py:42-43 | the insert statement literally reads `INSERT INTO {table}`, whatever table is passed |
| Database.InsertIgnoresTable | code/pomegranate/db/ukbdb.py:42-43 | the statement is the same for every target table and differs from the one naming it |
| Database.InsertStatement | code/pomegranate/db/ukbdb.py:36-46 | the intended statement starts INSERT INTO, then the target table, then the SELECT |
| Database.InsertNamesTable | code/pomegranate/db/ukbdb.py:36-46 | different target tables give different intended statements |
| Database.UkbDatabase.constructor | code/pomegranate/db/ukbdb.py:15-30 | a database over the given source tables and phenotypes table, with no commit yet |
| Database.UkbDatabase.GetPhenotypesByField | code/pomegranate/db/ukbdb.py:73-85 | succeeds exactly for a numeric field; then a name is returned exactly when some row of that field carries it |
| Database.UkbDatabase.DeletePhenotypeEntriesByField | code/pomegranate/db/ukbdb.py:137-151 | removes exactly the rows of the (phenotype, field) pair, keeps the others in order, and returns how many were removed |
| Database.UkbDatabase.Commit | code/pomegranate/cli/etl/extract_phenotype.py:203-204 | counts one commit and changes no rows |
| Database.UkbDatabase.QueryInsert | code/pomegranate/db/ukbdb.py:36-46 | with insert, the rows of every statement are appended to the phenotypes table in order (the intended INSERT INTO phenotypes) and the result is their total count; otherwise the rows are fetched, concatenated in statement order, and the table is unchanged |
| Database.UkbDatabase.RunSelect | code/pomegranate/db/ukbdb.py:214 | one statement through query_insert, with the same effect |
| Database.UkbDatabase.ExtractAllPasses | code/pomegranate/db/ukbdb.py:449-506 | the incident pass then the prevalent pass, each only with a non-empty code list; failures leave the table unchanged |
| Database.UkbDatabase.RunPass | code/pomegranate/db/ukbdb.py:457-473 | one pass runs its query only for a non-empty code list; an empty list adds nothing to n and leaves the table unchanged |
| Database.UkbDatabase.Extract | code/pomegranate/cli/etl/extract_phenotype.py:132-146 | an extractor's rows are inserted or fetched as ExtractRows describes; an error leaves the table unchanged |
| Database.UkbDatabase.GetPhenotypeEventsByField | code/pomegranate/db/ukbdb.py:87-109 | returns the statement text EventsQueryText builds and the result of EventsByField on the table: SqlError for an empty field or phenotype list, whose IN () is invalid SQL |
| Database.DeleteRemovesExactlyThePair | code/pomegranate/db/ukbdb.py:137-151 | a row survives the delete exactly when it is not of the pair; afterwards the phenotype has no rows of that field |
| Database.EventsByField | code/pomegranate/db/ukbdb.py:87-109 | specified by EventsByFieldMembership |
| Database.EventsByFieldMembership | code/pomegranate/db/ukbdb.py:87-109 | the query fails, with SqlError, exactly when a given list is empty; otherwise a row is returned exactly when its field is listed (if given) and its phenotype is listed (if given) |
| Config.PrimaryCareCensoringTexts | code/pomegranate/etl_config.py:18-23 | the primary-care censoring dates per provider, spelled DD-MM-YYYY |
| Config.DeathCensoringTexts | code/pomegranate/etl_config.py:26-30 | the death-registry censoring dates per country |
| Config.HospitalEhrCensoringTexts | code/pomegranate/etl_config.py:32-36 | the hospital censoring dates per country |
| Config.CancerCensoringTexts | code/pomegranate/etl_config.py:38-42 | the cancer-registry censoring dates per country |
| Dates.ParseAll | code/pomegranate/dates.py:48 | the exclusion dates parse exactly when every text does, one date per text in order |
| Dates.PlaceholderTexts | code/pomegranate/dates.py:21 | the default exclusion lists: 1900-01-01, 1901-01-01, 2037-07-07 for UK Biobank data and 1800-01-01, 1801-01-01, 2037-07-07 for HES |
| Dates.StrptimePaddedIso | code/pomegranate/dates.py:48 | `%Y-%m-%d` reads back every valid date written as zero-padded ISO |
| Dates.UkbPlaceholderDates | code/pomegranate/dates.py:21 | the UK Biobank placeholders parse to their three dates |
| Dates.HesPlaceholderDates | code/pomegranate/dates.py:57 | the HES placeholders parse to their three dates |
| Dates.CleanDatesUkb | code/pomegranate/dates.py:18-51 | specified by CleanDatesUkbExact |
| Dates.CleanDatesUkbExact | code/pomegranate/dates.py:18-51 | fails exactly when a date does not parse or the column is missing; otherwise keeps the columns, and a row survives exactly when its date is not excluded; the count matches |
| Dates.CleanDatesHes | code/pomegranate/dates.py:54-96 | the column loop computes exactly CleanedHes |
| Dates.CleanedHesExact | code/pomegranate/dates.py:54-96 | fails exactly when a date does not parse; a row survives exactly when none of its present date columns holds an excluded date; missing columns are skipped |
| Dates.PhenotypeNames | code/pomegranate/dates.py:266-268 | a single string becomes a one-element list; None stays None; a list is kept |
| Dates.OneElementTupleRejected | code/pomegranate/dates.py:287 | Python's repr of a one-element tuple ends in ",)", which is not a valid SQL list |
| Dates.EmptyListRejected | code/pomegranate/dates.py:281 | an empty list renders "()", which is not a valid SQL list |
| Dates.TupleReadsBack | code/pomegranate/dates.py:281 | for two or more comma-free names the tuple rendering reads back as those names |
| Dates.InListReadsBack | code/pomegranate/dates.py:281-287 | the corrected rendering reads back as the same items for every non-empty comma-free list, one item included |
| Dates.PhenotypeFirstSql | code/pomegranate/dates.py:266-293 | the statement builder produces exactly PhenotypeFirstQuery |
| Dates.LoneNameIsOneElementList | code/pomegranate/dates.py:266-279 | a single name and a one-element list give the same query, an equality test on the phenotype |
| Dates.QueryConnectives | code/pomegranate/dates.py:276-293 | the phenotype filter is empty exactly for all phenotypes; the field filter starts with WHERE exactly then and with AND otherwise; LIMIT comes last |
| Dates.EarliestRow | code/pomegranate/dates.py:302 | idxmin per (eid, phenotype): a row of that pair with the smallest date, or none when every date is missing |
| Dates.QueryRows | code/pomegranate/dates.py:270-297 | specified by QueryErrors and QueryRowsMatch |
| Dates.QueryErrors | code/pomegranate/dates.py:276-297 | with a one-element list rendered as a valid IN list (see Findings), the query fails exactly for an empty phenotype list, an empty field list or a negative limit; a limit bounds the row count |
| Dates.CleanRowsExact | code/pomegranate/dates.py:298 | a queried row survives exactly when its date is not a UK Biobank placeholder |
| Dates.QueryRowsMatch | code/pomegranate/dates.py:270-297 | every queried row is the projection of a table row matching the phenotype and field filters |
| Dates.GetPhenotypeFirst | code/pomegranate/dates.py:266-304 | specified by ResultFromCleanRows and NoPlaceholderDates |
| Dates.ResultFromCleanRows | code/pomegranate/dates.py:298-304 | every returned row is a cleaned row |
| Dates.NoPlaceholderDates | code/pomegranate/dates.py:298-304 | no returned row carries a placeholder date, and each comes from a matching table row |
| Dates.FirstPerPair | code/pomegranate/dates.py:300-303 | specified by FirstOnlyOnePerPair and FirstOnlyEmptyFails |
| Dates.FirstOnlyOnePerPair | code/pomegranate/dates.py:300-303 | with first_only, one row per (eid, phenotype), every pair of the input is kept, and each kept row has the pair's earliest date |
| Dates.FirstOnlyEmptyFails | code/pomegranate/dates.py:300-303 | an empty frame fails; a failure means an empty frame or a pair with no date at all |
| Dates.GetDod | code/pomegranate/dates.py:168-203 | specified by GetDodRows and GetDodErrors |
| Dates.GetDodRows | code/pomegranate/dates.py:168-203 | with drop_alive only rows with a death date; every requested participant with one is returned (every requested one without drop_alive); eids are distinct |
| Dates.GetDodErrors | code/pomegranate/dates.py:193-200 | with a one-element eid list rendered as a valid IN list (see Findings), fails exactly for an empty eid list or duplicate eids |
| Dates.ParsePaddedDmy | code/pomegranate/dates.py:325-326 | `%d-%m-%Y` reads back every valid date written as DD-MM-YYYY |
| Dates.ParseAllDmy | code/pomegranate/dates.py:325-326 | all texts parse, one date per text, or some text does not |
| Dates.EarliestCensoring | code/pomegranate/dates.py:318-323 | the earliest date of a dictionary: defined exactly when it is non-empty and all texts parse; not after any entry; equal to one of them |
| Dates.MinCensorDateBelow | code/pomegranate/dates.py:307-327 | the intended minimum is not after any configured censoring date |
| Dates.MinCensorDateDefined | code/pomegranate/dates.py:307-327 | the intended minimum exists exactly when no dictionary is empty and every text of all four parses as a date |
| Dates.MinCensorDateAmong | code/pomegranate/dates.py:318-326 | the intended minimum, when it exists, is the date of one of the configured texts |
| Dates.MinCensorDateEarliest | code/pomegranate/dates.py:307-327 | the intended minimum exists exactly when no dictionary is empty and all texts parse; it is not after any censoring date and is one of them |
| Dates.MinCensorTextIs | code/pomegranate/dates.py:318-323 | as written, the string minimum of the configured texts is the text of 28 February 2016 |
| Dates.MinCensorTextSpelled | code/pomegranate/dates.py:318-324 | that text is "28-02-2016", the value the source comment names |
| Dates.MinCensorDateAsWritten | code/pomegranate/dates.py:307-327 | specified by MinCensorDateAsWrittenIs |
| Dates.MinCensorDateAsWrittenIs | code/pomegranate/dates.py:307-327 | as written, the function returns 28 February 2016 |
| Dates.PrimaryCareEarliest | code/pomegranate/etl_config.py:18-23 | the earliest primary-care censoring date is 31 May 2016 |
| Dates.HospitalEarliest | code/pomegranate/etl_config.py:32-36 | the earliest hospital censoring date is 28 February 2016 |
| Dates.CancerEarliest | code/pomegranate/etl_config.py:38-42 | the earliest cancer censoring date is 31 October 2015 |
| Dates.DeathEarliest | code/pomegranate/etl_config.py:26-30 | the earliest death censoring date is 31 August 2020 |
| Dates.MinCensorDateOf | code/pomegranate/dates.py:318-323 | the intended minimum is the earliest of the four dictionaries' earliest dates |
| Dates.MinCensorDate | code/pomegranate/dates.py:307-327 | specified by MinCensorDateIs, MinCensorDateEarliest, MinCensorDateBelow and MinCensorDateAmong |
| Dates.MinCensorDateIs | code/pomegranate/dates.py:307-327 | the intended minimum censoring date is 31 October 2015 |
| Dates.MinCensorDateDiffers | code/pomegranate/dates.py:318-326 | the intended minimum is strictly earlier than the value returned as written |
| Helpers.InferFieldInfo | code/pomegranate/helpers.py:10-28 | three integers or ValueError; a name without '.' gets instance and array index 0 |
| Helpers.InferCanonical | code/pomegranate/helpers.py:10-28 | "F-I.N" gives [F, I, N] |
| Helpers.InferBare | code/pomegranate/helpers.py:20-28 | a bare field id "F" falls back to [F, 0, 0] |
| Helpers.InferNoArrayIndex | code/pomegranate/helpers.py:20-28 | "F-I" without an array index falls back to [F, 0, 0], dropping the instance |
| Helpers.InferNoInstance | code/pomegranate/helpers.py:20-28 | "F.N" without an instance makes the fallback parse "F.N" as an integer, which fails |
| Helpers.WordToRegex | code/pomegranate/helpers.py:102-107 | the pattern is the word twice plus the four characters of its two anchors |
| Helpers.WordToRegexAlternatives | code/pomegranate/helpers.py:102-107 | for a word without '\|' the pattern has exactly two alternatives: the word after whitespace and the word at the start |
| GpRegistrations.BirthYearValue | code/pomegranate/db/schemas/gp_registrations.py:15-31 | a year of birth is found exactly when the participant has a field-34 row at instance 0, and it is that row's value |
| GpRegistrations.RepairRow | code/pomegranate/db/schemas/gp_registrations.py:15-31 | only reg_date can change, and a registration whose year is not 1902 or 1903 is unchanged |
| GpRegistrations.PostProcess | code/pomegranate/db/schemas/gp_registrations.py:15-31 | the UPDATE rewrites every registration in place by RepairRow and nothing else |
| GpRegistrations.RepairSetsJulyFirst | code/pomegranate/db/schemas/gp_registrations.py:20-30 | a 1902/1903 placeholder becomes 1 July of the year of birth |
| GpRegistrations.JulyFirstParses | code/pomegranate/db/schemas/gp_registrations.py:20 | the text built from a year and "-07-01" reads as 1 July of that year |
| GpRegistrations.RepairKeepsOthers | code/pomegranate/db/schemas/gp_registrations.py:23-30 | without a year-of-birth row the registration is unchanged |
| GpRegistrations.PostProcessClearsPlaceholders | code/pomegranate/db/schemas/gp_registrations.py:15-31 | when the year of birth is known and is not itself 1902 or 1903, no placeholder remains |
| BaselineCohort.FirstVisitValue | code/pomegranate/db/schemas/baseline_cohort.py:35-40 | a value is copied exactly when the participant has a row of the field at instance 0, array index 0, and it is that row's value |
| BaselineCohort.CopiedValues | code/pomegranate/db/schemas/baseline_cohort.py:35-138 | the copied columns are exactly the listed fields that have a first-visit value, each holding that value |
| BaselineCohort.Country | code/pomegranate/db/schemas/baseline_cohort.py:140-145 | the country is E, S or W, and E when the centre is NULL |
| BaselineCohort.CountryOfCentre | code/pomegranate/db/schemas/baseline_cohort.py:140-145 | Glasgow and Edinburgh give S, Cardiff, Swansea and Wrexham give W, every other centre E |
| BaselineCohort.DateOfBirth | code/pomegranate/db/schemas/baseline_cohort.py:154-158 | a date of birth needs both year and month columns and is a valid date |
| BaselineCohort.DateOfBirthFirstOfMonth | code/pomegranate/db/schemas/baseline_cohort.py:154-158 | a year y and month m give 1 m y |
| BaselineCohort.RegistrationsOf | code/pomegranate/db/schemas/baseline_cohort.py:186-189 | exactly the registrations of the participant |
| BaselineCohort.Apply | code/pomegranate/db/schemas/baseline_cohort.py:140-182 | an UPDATE without a join rewrites every row by the same rule |
| BaselineCohort.CopyFields | code/pomegranate/db/schemas/baseline_cohort.py:35-138 | the fifteen copy UPDATEs set each row's columns to its first-visit values and change nothing else |
| BaselineCohort.FillDerived | code/pomegranate/db/schemas/baseline_cohort.py:140-158 | country, death date and date of birth are derived from the copied columns and field 40000 |
| BaselineCohort.FillPrimaryCare | code/pomegranate/db/schemas/baseline_cohort.py:160-208 | gp_ehr is 1 exactly with a registration, clinical or prescription row, else 0; single_reg and deduct_date come from a participant's only registration |
| BaselineCohort.PrimaryCareSteps | code/pomegranate/db/schemas/baseline_cohort.py:160-208 | the five UPDATEs applied to one unset row give gp_ehr, single_reg and deduct_date as the table promises |
| BaselineCohort.Cohort | code/pomegranate/db/schemas/baseline_cohort.py:3-208 | specified by Build, CohortOnePerParticipant, CohortColumns and PrimaryCareFlags |
| BaselineCohort.Build | code/pomegranate/db/schemas/baseline_cohort.py:3-208 | the whole script builds exactly the Cohort table |
| BaselineCohort.CohortOnePerParticipant | code/pomegranate/db/schemas/baseline_cohort.py:5-9 | one row per distinct baseline eid, and no others |
| BaselineCohort.PrimaryCareFlags | code/pomegranate/db/schemas/baseline_cohort.py:160-208 | the primary-care flags of every row, both directions |
| BaselineCohort.SpecRow | code/pomegranate/db/schemas/baseline_cohort.py:35-208 | specified by CohortColumns and PrimaryCareFlags |
| BaselineCohort.CohortColumns | code/pomegranate/db/schemas/baseline_cohort.py:35-158 | a copied column exists exactly for a listed field with a first-visit row and holds its value; a date of birth falls on the 1st |
| CohortPhenotypeFirst.SexLabel | code/pomegranate/db/schemas/cohort_phenotype_first.py:11 | specified by SexLabelFollowsCoding |
| CohortPhenotypeFirst.SexLabelFollowsCoding | code/pomegranate/db/schemas/cohort_phenotype_first.py:11 | code 0 is "female", any other code and NULL are "male" |
| CohortPhenotypeFirst.Merge | code/pomegranate/db/schemas/cohort_phenotype_first.py:29-35 | specified by MergeRow, MergeMembership, MergeRowsPerParticipant and MergeSize |
| CohortPhenotypeFirst.MergeRow | code/pomegranate/db/schemas/cohort_phenotype_first.py:3-66 | a merged row keeps the participant and the first-event row, with the column list of the chosen variant |
| CohortPhenotypeFirst.MergeMembership | code/pomegranate/db/schemas/cohort_phenotype_first.py:29-35 | LEFT JOIN: a row for every matching first event, or one row with no event when there is none |
| CohortPhenotypeFirst.MatchesCount | code/pomegranate/db/schemas/cohort_phenotype_first.py:33-34 | a participant matches exactly its own first-event rows |
| CohortPhenotypeFirst.MergeRowsPerParticipant | code/pomegranate/db/schemas/cohort_phenotype_first.py:29-35 | a participant gives as many rows as it has first events, at least one |
| CohortPhenotypeFirst.MergeSize | code/pomegranate/db/schemas/cohort_phenotype_first.py:29-35 | the merge has at least one row per participant |
| PhenotypeFirstTable.FieldLabelAgreesWithConfig | code/pomegranate/db/schemas/phenotype_first.py:11-17 | the label CASE agrees with the field-to-source map, and unknown fields are "selfreport" |
| PhenotypeFirstTable.GroupMin | code/pomegranate/db/schemas/phenotype_first.py:18 | MIN ignores NULLs: none exactly when the group has no date, otherwise a date of the group that no other date precedes |
| PhenotypeFirstTable.PhenotypeFirst | code/pomegranate/db/schemas/phenotype_first.py:5-23 | specified by PhenotypeFirstGroups, PhenotypeFirstCovers and PhenotypeFirstEarliest |
| PhenotypeFirstTable.PhenotypeFirstGroups | code/pomegranate/db/schemas/phenotype_first.py:5-23 | one row per (eid, phenotype, field_id) group, each with an event of a cohort participant |
| PhenotypeFirstTable.PhenotypeFirstCovers | code/pomegranate/db/schemas/phenotype_first.py:19-23 | every event of a cohort participant has its group's row |
| PhenotypeFirstTable.PhenotypeFirstEarliest | code/pomegranate/db/schemas/phenotype_first.py:5-23 | each row carries its label and its group's earliest date, NULL exactly when no event is dated |
| PhenotypeFirstTable.SentinelWins | code/pomegranate/db/schemas/phenotype_first.py:18 | a 1900-01-01 event makes the group's date at most the sentinel, and exactly it when nothing is earlier |
| PhenotypeFirstTable.DobOf | code/pomegranate/db/schemas/phenotype_first.py:31-35 | a date of birth found comes from a cohort row of that participant |
| PhenotypeFirstTable.ClampRow | code/pomegranate/db/schemas/phenotype_first.py:30-38 | only the date can change, and a missing date stays missing |
| PhenotypeFirstTable.ClampToBirth | code/pomegranate/db/schemas/phenotype_first.py:30-38 | the UPDATE rewrites every row in place by ClampRow |
| PhenotypeFirstTable.ClampNotBeforeBirth | code/pomegranate/db/schemas/phenotype_first.py:34-37 | a known, non-placeholder date is not before the participant's date of birth after the update |
| PhenotypeFirstTable.ClampKeeps | code/pomegranate/db/schemas/phenotype_first.py:35-37 | missing, placeholder, no-birth-date and after-birth dates are unchanged |
| PhenotypeFirstTable.ClampIdempotent | code/pomegranate/db/schemas/phenotype_first.py:30-38 | running the update twice changes nothing more |
| BaselineLoader.CellTuple | code/scripts/bin/ops/load_baseline_to_mysql.py:74-86 | an empty cell emits nothing; a filled one emits its value, int(row[0]) as eid and the column's parsed field, instance and index |
| BaselineLoader.RowTuples | code/scripts/bin/ops/load_baseline_to_mysql.py:74-86 | a data row emits one tuple per filled cell after the eid |
| BaselineLoader.RowTuplesErrPersists | code/scripts/bin/ops/load_baseline_to_mysql.py:74-86 | an exception on one cell ends the row |
| BaselineLoader.Emitted | code/scripts/bin/ops/load_baseline_to_mysql.py:66-94 | specified by EmittedErrPersists and LoadBaseline |
| BaselineLoader.EmittedErrPersists | code/scripts/bin/ops/load_baseline_to_mysql.py:66-94 | an exception on one row ends the load |
| BaselineLoader.FlushKeepsOrder | code/scripts/bin/ops/load_baseline_to_mysql.py:88-94 | flushing the buffer keeps every tuple and their order |
| BaselineLoader.EmitRow | code/scripts/bin/ops/load_baseline_to_mysql.py:74-91 | the cell loop appends exactly the row's tuples to buffer and batches; every flushed batch holds 1000 tuples |
| BaselineLoader.LoadBaseline | code/scripts/bin/ops/load_baseline_to_mysql.py:66-96 | fails exactly when the file does; otherwise the batches concatenate to every emitted tuple in order, each full except the last |
| BaselineLoader.HeaderEmitsNothing | code/scripts/bin/ops/load_baseline_to_mysql.py:70-72 | an "eid" row only replaces the column names |
| BaselineLoader.DataRowCount | code/scripts/bin/ops/load_baseline_to_mysql.py:74-86 | a data row adds exactly one tuple per filled cell |
| BaselineLoader.RowTuplesFromCells | code/scripts/bin/ops/load_baseline_to_mysql.py:74-86 | each tuple comes from a filled cell, with its value, its column's field info and int(row[0]) |
| Transpose.CellLine | code/scripts/bin/ops/transpose.py:37-47 | an empty cell writes nothing; a written line has five columns, the eid first and the cell last |
| Transpose.RowLines | code/scripts/bin/ops/transpose.py:36-48 | with no failure, one line per filled cell after the eid |
| Transpose.Transposed | code/scripts/bin/ops/transpose.py:30-48 | the fixed header is the first line of every non-empty input |
| Transpose.WriteRow | code/scripts/bin/ops/transpose.py:36-48 | the cell loop writes exactly RowLines |
| Transpose.RowLinesStop | code/scripts/bin/ops/transpose.py:40-47 | an exception on one cell ends the line |
| Transpose.TransposedStop | code/scripts/bin/ops/transpose.py:34-48 | an exception on one line ends the output, keeping what was written |
| Transpose.TransposeFile | code/scripts/bin/ops/transpose.py:30-48 | the script writes exactly Transposed |
| Transpose.DataLineCount | code/scripts/bin/ops/transpose.py:34-48 | a data line appends its cell lines, one per filled cell |
| Transpose.FieldAndInstance | code/scripts/bin/ops/transpose.py:39-47 | specified by CanonicalLine and NoDotFails |
| Transpose.CanonicalLine | code/scripts/bin/ops/transpose.py:39-48 | an "F-I.N" column writes [eid, F, I, N, value] |
| Transpose.NoDotFails | code/scripts/bin/ops/transpose.py:40-47 | a column without '.' fails with IndexError, so the fallback's n = 0 never takes effect |

## Left out

- YAML parsing, directory listing and file I/O: definitions, catalogue listings and CSV rows are given as values, and written CSV lines are returned.
- Logging, `print`, `tqdm` progress bars and the CLI argument parser: they have no effect on the data.
- The database connection and transactions. Statements take effect at once (autocommit). `commit()` is only counted, and a failed run is not rolled back.
- Biomarker phenotypes (`BiomarkerPhenotype`, `extract_biomarker`, `extract_biomarker_ehr`, `extract_baseline_biomarker`). They call code that is not part of this model, so the driver returns `Err(Unsupported)` for them.
- `gp_ehr_data_provider` in `baseline_cohort`: MySQL picks an arbitrary row in a multi-row UPDATE.
- Floating point: `ROUND` of non-integer years and ages. Years and ages are integers here.
- Regular expressions in general: `REGEXP '^(c1|...|ck)'` is read as "some code is a prefix". The codes are assumed to hold no metacharacters other than `|`. An empty code list is read as selecting nothing; as written `'^()'` matches every value (first row of Findings).
- SQL quoting and injection: names are pasted into statements unescaped.
- MySQL collation and case folding: text comparison is exact.
- `Common.ParseInt` reads an optional sign followed by decimal digits. Python's `int()` also accepts surrounding whitespace and '_' separators, which are not modelled.
- `Dates.Strptime`, like `Common.ParseIsoDate`, accepts any day from 1 to 31 in any month. `strptime` and `STR_TO_DATE` reject days past the end of the month (31 February), and month lengths are not modelled.
- `Dates.FirstPerPair` returns one row per pair, in the order of each pair's first row. pandas sorts the groups by key, and that order is not modelled.
- `Dates.FirstPerPair`: a group whose dates are all missing makes `idxmin` raise. It is modelled as `ValueError`, as current pandas raises; older pandas returned NaN instead.
- `Dates.QueryRows` applies `LIMIT` to the table order: MySQL returns some rows when there is no `ORDER BY`.
- `PhenotypeFirstTable.PhenotypeFirst` lists groups in the order of their first event: `GROUP BY` output order is unspecified.
- `BaselineLoader.LoadBaseline`: an error result stands for "nothing committed". The executemany calls made before the error are not shown as partial inserts.
- `Transpose.TransposeFile`: the lines written before an exception are returned with the exception. The partly written gzip file is not modelled beyond that.
- BaselineCohort.FirstVisitValue: takes the first matching baseline row. With duplicate (eid, field, i, n) rows a multi-row UPDATE in MySQL may copy any of them.
- GpRegistrations.BirthYearValue: takes the first matching field-34 row, where MySQL's UPDATE may pick any of several.
- `Transpose.FieldAndInstance` sets `n = 0` in the fallback, but that value is always overwritten (see `Transpose.NoDotFails`), so it is not modelled.
- Extraction.CancerRegistryRows: an empty code list selects no rows here. As written `REGEXP '^()'` selects every field-40006 row (first row of Findings).
- Extraction.CancerRegistryRows: the field-40005 text is taken to be an ISO date and read with `JoinedDate`. As written the query selects `b2.value` unconverted and `field_id` as the text `'40006'`: fetch mode returns that text, and insert mode leaves it to MySQL's implicit cast, which rejects or zeroes a non-ISO value where the model gives NULL.
- Extraction.CancerRegistryMembership: the date it states is `JoinedDate` of the field-40005 partner, that is its text read as an ISO date; the unconverted text the query selects is not modelled (see `Extraction.CancerRegistryRows`).
- Extraction.CancerRegistryMembership: its iff holds of the corrected empty-list reading. As written an empty code list also admits every field-40006 value.
- Extraction.ProcedureRows: an empty code list selects no rows here. As written `REGEXP '^()'` selects every procedure at the level (first row of Findings).
- Extraction.ProcedureMembership: its iff holds of the corrected empty-list reading. As written an empty code list also admits every procedure at the level.
- Extraction.MortalityRows: an empty code list selects no rows here. As written `REGEXP '^()'` selects every cause of death at the level (first row of Findings).
- Extraction.MortalityMembership: its iff holds of the corrected empty-list reading. As written an empty code list also admits every cause of death at the level.
- Database.UkbDatabase.QueryInsert: models the intended `INSERT INTO phenotypes` statement. As written the statement names the table `{table}` and fails (fourth row of Findings), so the insert-mode lemmas `ExtractDriver.RefreshReplacesPair`, `StepSettles`, `FieldsRunSettles`, `PhenotypeRunSettles`, `RunSettles` and `ExtractionIdempotent` describe the corrected statement.
- Dates.PhenotypeFirstSql: renders a one-element list as `('x')`. As written `tuple()` renders `('x',)`, which fails (third row of Findings).
- Dates.QueryRows: succeeds for a one-element field list. As written such a query fails (third row of Findings).
- Dates.QueryErrors: "fails exactly for" holds of the corrected IN-list rendering. As written a one-element field list also fails; a one-element phenotype list renders `= 'x'` and succeeds in both.
- Dates.GetDod: succeeds for a one-element eid list. As written `tuple(eids)` renders `(5,)`, which fails (third row of Findings).
- Dates.GetDodErrors: "fails exactly for" holds of the corrected IN-list rendering. As written a one-element eid list also fails.
- PhenotypeModel.Load: `variable_name` is taken to be text. A definition whose `variable_name` is not text gives `Err(Unsupported)`, where Python would store the value as it is.
- ExtractDriver.Stems: `variable_name` is taken to be text. A catalogue entry whose `variable_name` is not text gives `Err(Unsupported)`, where Python would pass the value on.
- The `get_dob`, `get_time_since_baseline` and `describe_values` helpers: they are outside the modelled core.
- `load_baseline_to_mysql.py`'s own `infer_field_info` (lines 25-43) is the same text as `helpers.py`'s, so both are modelled once by `Helpers.InferFieldInfo`.

## Findings

| source | as written | input that shows it | evidently intended | confidence | as-written member | corrected member |
|---|---|---|---|---|---|---|
| code/pomegranate/db/ukbdb.py:366-378 | `REGEXP '^(' + "\|".join(values) + ')'` builds `'^()'` for an empty code list, and its empty alternative matches every value (also at 689, 753, 786, 822) | a phenotype whose field 40006 has no `"any"` codes: every cancer-registry row of field 40006 is extracted | an empty code list selects no rows | medium; not executed | Extraction.RegexEmptyListMatchesAll | Extraction.PrefixMatchEmptyList |
| code/pomegranate/dates.py:318-326 | the minimum is taken over `'DD-MM-YYYY'` strings before parsing, so it compares days first | the shipped censoring dates: the text minimum is `"28-02-2016"` | the earliest date, 31 October 2015 | high; not executed | Dates.MinCensorDateAsWrittenIs | Dates.MinCensorDateIs |
| code/pomegranate/dates.py:287 | `f" field_id IN {tuple(fields)}"` renders a one-element list as `('41202',)`, which is not valid SQL (also `tuple(eids)` at 194) | `get_phenotype_first(fields=['41202'])` | `IN ('41202')` | high; not executed | Dates.OneElementTupleRejected | Dates.InListReadsBack |
| code/pomegranate/db/ukbdb.py:43 | `"INSERT INTO {table} "` has no `f` prefix, so the statement names the table `{table}` whatever `table` is | any extractor called with `insert=True` | `INSERT INTO phenotypes ...` | medium; not executed | Database.InsertIgnoresTable | Database.InsertNamesTable |
