/**
 * Constants of the ETL (etl_config.py, phenotype_config.py): the standard
 * UK Biobank fields, the field-to-source map, the censoring dates and the
 * phenotype metadata and code columns.
 */
module Config {
  import opened Common

  /** UK Biobank fields the pipeline knows how to extract (STANDARD_FIELDS). */
  const StandardFields: set<int> :=
    {20001, 20002, 20003, 20004, 41202, 41204, 41200, 41210, 40001, 40002, 42040, 42039, 40006}

  /** Top-level data source of each EHR field (FIELD_MAPS). */
  const FieldMaps: map<int, string> := map[
    41202 := "ehr_hospital", 41204 := "ehr_hospital", 41200 := "ehr_hospital", 41240 := "ehr_hospital",
    40001 := "ehr_death", 40002 := "ehr_death",
    42040 := "ehr_primary_care", 42039 := "ehr_primary_care",
    40006 := "ehr_cancer"]

  /** Primary-care field for prescriptions and clinical events. */
  const Prescriptions: int := 42039
  const PrimaryCare: int := 42040

  /**
   * Censoring dates, as the 'DD-MM-YYYY' texts the configuration stores, in
   * dictionary order; CensoringTexts spells them out.
   */
  const PrimaryCareCensoring: seq<(int, string)> := [
    (1, PaddedDmy(Date(2017, 5, 31))), (2, PaddedDmy(Date(2017, 3, 31))),
    (3, PaddedDmy(Date(2016, 5, 31))), (4, PaddedDmy(Date(2017, 8, 31)))]
  const DeathCensoring: seq<(string, string)> := [
    ("E", PaddedDmy(Date(2020, 8, 31))), ("W", PaddedDmy(Date(2020, 8, 31))), ("S", PaddedDmy(Date(2020, 8, 31)))]
  const HospitalEhrCensoring: seq<(string, string)> := [
    ("E", PaddedDmy(Date(2020, 6, 30))), ("S", PaddedDmy(Date(2016, 8, 31))), ("W", PaddedDmy(Date(2016, 2, 28)))]
  const CancerCensoring: seq<(string, string)> := [
    ("E", PaddedDmy(Date(2016, 3, 31))), ("S", PaddedDmy(Date(2015, 10, 31))), ("W", PaddedDmy(Date(2016, 12, 31)))]

  lemma PrimaryCareCensoringTexts()
    ensures PrimaryCareCensoring == [(1, "31-05-2017"), (2, "31-03-2017"), (3, "31-05-2016"), (4, "31-08-2017")]
  {
    assert PaddedDmy(Date(2017, 5, 31)) == "31-05-2017";
    assert PaddedDmy(Date(2017, 3, 31)) == "31-03-2017";
    assert PaddedDmy(Date(2016, 5, 31)) == "31-05-2016";
    assert PaddedDmy(Date(2017, 8, 31)) == "31-08-2017";
  }

  lemma DeathCensoringTexts()
    ensures DeathCensoring == [("E", "31-08-2020"), ("W", "31-08-2020"), ("S", "31-08-2020")]
  {
    assert PaddedDmy(Date(2020, 8, 31)) == "31-08-2020";
  }

  lemma HospitalEhrCensoringTexts()
    ensures HospitalEhrCensoring == [("E", "30-06-2020"), ("S", "31-08-2016"), ("W", "28-02-2016")]
  {
    assert PaddedDmy(Date(2020, 6, 30)) == "30-06-2020";
    assert PaddedDmy(Date(2016, 8, 31)) == "31-08-2016";
    assert PaddedDmy(Date(2016, 2, 28)) == "28-02-2016";
  }

  lemma CancerCensoringTexts()
    ensures CancerCensoring == [("E", "31-03-2016"), ("S", "31-10-2015"), ("W", "31-12-2016")]
  {
    assert PaddedDmy(Date(2016, 3, 31)) == "31-03-2016";
    assert PaddedDmy(Date(2015, 10, 31)) == "31-10-2015";
    assert PaddedDmy(Date(2016, 12, 31)) == "31-12-2016";
  }

  /** Metadata keys every phenotype record must carry (METADATA_FIELDS), in order. */
  const MetadataFields: seq<string> := [
    "phenotype", "group", "is_cancer", "is_adult", "variable_name", "gender",
    "authors", "uuid", "priority", "ontologies", "short_desc", "long_desc"]

  /** Metadata keys that may be absent (METADATA_OPTIONAL_FIELDS), in order. */
  const MetadataOptionalFields: seq<string> := ["complex_logic", "created_by", "date_created"]

  /** Columns of a code entry (CODE_FIELDS), in order. */
  const CodeFields: seq<string> := ["code", "value", "ontology", "type", "group"]
}
