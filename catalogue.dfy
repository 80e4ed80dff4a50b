/**
 * The phenotype catalogue (catalogue.py): one metadata record per phenotype
 * definition file, and the queries the command-line tools run over it.
 */
module CatalogueModel {
  import opened Common
  import Config
  import opened PhenotypeModel

  /** One catalogue row: every METADATA_FIELDS and METADATA_OPTIONAL_FIELDS column. */
  type Record = map<string, MetaValue>

  function RecordKeys(): set<string> {
    (set k | k in Config.MetadataFields) + (set k | k in Config.MetadataOptionalFields)
  }

  /** Column access on a complete record; an absent column reads as null. */
  function Field(rec: Record, k: string): MetaValue {
    if k in rec then rec[k] else MNull
  }

  /**
   * The row built from a phenotype's metadata: each required key is copied (a
   * missing one raises KeyError), each optional key is copied or set to None.
   */
  function RecordOf(metadata: map<string, MetaValue>): (r: Result<Record>)
    ensures r.Err? <==> exists k :: k in Config.MetadataFields && k !in metadata
    ensures r.Err? ==> r.error == KeyError
    ensures r.Ok? ==> r.value.Keys == RecordKeys()
    ensures r.Ok? ==> forall k :: k in Config.MetadataFields ==> r.value[k] == metadata[k]
    ensures r.Ok? ==> forall k :: k in Config.MetadataOptionalFields ==>
      r.value[k] == (if k in metadata then metadata[k] else MNull)
  {
    if exists k :: k in Config.MetadataFields && k !in metadata then Err(KeyError)
    else Ok(map k | k in RecordKeys() :: if k in metadata then metadata[k] else MNull)
  }

  /** Stems of the directory entries ending in ".yaml", in listing order. */
  function YamlStems(listing: seq<string>): (stems: seq<string>)
    ensures |stems| <= |listing|
  {
    if |listing| == 0 then []
    else
      var f := listing[|listing| - 1];
      YamlStems(listing[..|listing| - 1]) +
        (if |f| >= 5 && f[|f| - 5..] == ".yaml" then [f[..|f| - 5]] else [])
  }

  /** The row of one stem: its phenotype is loaded and its metadata copied. */
  function RowFor(files: map<string, Doc>, stem: string): (r: Result<Record>)
    ensures stem !in files ==> r == Err(PhenotypeNotFound)
    ensures r.Ok? ==> Load(files, stem).Ok? && RecordOf(Load(files, stem).value.doc.metadata) == r
  {
    match Load(files, stem)
    case Err(e) => Err(e)
    case Ok(p) => RecordOf(p.doc.metadata)
  }

  /** The catalogue rows for the given stems: each stem's phenotype is loaded and
      its metadata turned into a row; the first failure ends the construction. */
  function CatalogueRecords(files: map<string, Doc>, stems: seq<string>): (r: Result<seq<Record>>)
    ensures r.Ok? ==> |r.value| == |stems|
  {
    if |stems| == 0 then Ok([])
    else
      match CatalogueRecords(files, stems[..|stems| - 1])
      case Err(e) => Err(e)
      case Ok(rows) =>
        match RowFor(files, stems[|stems| - 1])
        case Err(e) => Err(e)
        case Ok(row) => Ok(rows + [row])
  }

  /** Row i of a loaded catalogue is the row of the i-th stem's phenotype. */
  lemma {:induction false} CatalogueRecordsRow(files: map<string, Doc>, stems: seq<string>, i: int)
    requires CatalogueRecords(files, stems).Ok? && 0 <= i < |stems|
    ensures RowFor(files, stems[i]) == Ok(CatalogueRecords(files, stems).value[i])
  {
    var init := stems[..|stems| - 1];
    var rows := CatalogueRecords(files, init);
    assert rows.Ok?;
    if i < |stems| - 1 {
      CatalogueRecordsRow(files, init, i);
      assert init[i] == stems[i];
      assert CatalogueRecords(files, stems).value[i] == rows.value[i];
    }
  }

  /** A stem whose file is missing makes the whole construction fail. */
  lemma {:induction false} CatalogueRecordsFailure(files: map<string, Doc>, stems: seq<string>, i: int)
    requires 0 <= i < |stems| && stems[i] !in files
    ensures CatalogueRecords(files, stems).Err?
  {
    if i < |stems| - 1 {
      var init := stems[..|stems| - 1];
      assert init[i] == stems[i];
      CatalogueRecordsFailure(files, init, i);
    }
  }

  lemma {:induction false} CatalogueRecordsSticky(files: map<string, Doc>, stems: seq<string>, k: nat)
    requires k <= |stems| && CatalogueRecords(files, stems[..k]).Err?
    ensures CatalogueRecords(files, stems).Err?
  {
    if k < |stems| {
      assert stems[..|stems| - 1][..k] == stems[..k];
      CatalogueRecordsSticky(files, stems[..|stems| - 1], k);
    } else {
      assert stems[..k] == stems;
    }
  }

  predicate IsNonCancer(rec: Record) { Field(rec, "is_cancer") == MStr("0") }
  predicate IsAdult(rec: Record) { Field(rec, "is_adult") == MStr("1") }
  predicate HasComplexLogic(rec: Record) { Field(rec, "complex_logic") != MNull }

  predicate KeepRecord(includeCancer: bool, includeNeonatal: bool, rec: Record) {
    (includeCancer || IsNonCancer(rec)) && (includeNeonatal || IsAdult(rec))
  }

  function Keep(includeCancer: bool, includeNeonatal: bool): Record -> bool {
    rec => KeepRecord(includeCancer, includeNeonatal, rec)
  }

  function InGroup(category: string): Record -> bool {
    rec => Field(rec, "group") == MStr(category)
  }

  /** The variable_name column of a frame. */
  function Names(rs: seq<Record>): (names: seq<MetaValue>)
    ensures |names| == |rs|
    ensures forall i :: 0 <= i < |rs| ==> names[i] == Field(rs[i], "variable_name")
  {
    seq(|rs|, i requires 0 <= i < |rs| => Field(rs[i], "variable_name"))
  }

  /** The name column of the rows kept by p: a name is listed exactly when some kept row carries it. */
  lemma NamesOfFilter(rs: seq<Record>, p: Record -> bool, x: MetaValue)
    ensures x in Names(Filter(rs, p)) <==> exists rec :: rec in rs && p(rec) && Field(rec, "variable_name") == x
  {
    var kept := Filter(rs, p);
    if x in Names(kept) {
      var j :| 0 <= j < |kept| && Names(kept)[j] == x;
      FilterMembership(rs, p, kept[j]);
    }
    if exists rec :: rec in rs && p(rec) && Field(rec, "variable_name") == x {
      var rec :| rec in rs && p(rec) && Field(rec, "variable_name") == x;
      FilterMembership(rs, p, rec);
      var j :| 0 <= j < |kept| && kept[j] == rec;
      assert Names(kept)[j] == x;
    }
  }

  /** The first row whose variable_name is `name`. */
  function FirstNamed(rs: seq<Record>, name: string): (r: Option<Record>)
    ensures r.Some? ==> r.value in rs && Field(r.value, "variable_name") == MStr(name)
    ensures r.None? <==> forall rec :: rec in rs ==> Field(rec, "variable_name") != MStr(name)
    ensures r.Some? ==> exists i :: (0 <= i < |rs| && rs[i] == r.value &&
      forall j :: 0 <= j < i ==> Field(rs[j], "variable_name") != MStr(name))
  {
    if |rs| == 0 then None
    else if Field(rs[0], "variable_name") == MStr(name) then Some(rs[0])
    else
      var r := FirstNamed(rs[1..], name);
      assert forall rec :: rec in rs ==> rec == rs[0] || rec in rs[1..];
      if r.Some? then
        var i :| 0 <= i < |rs[1..]| && rs[1..][i] == r.value &&
          forall j :: 0 <= j < i ==> Field(rs[1..][j], "variable_name") != MStr(name);
        assert rs[i + 1] == r.value;
        r
      else r
  }

  /** One more stem: its row is appended, or its failure ends the construction. */
  lemma CatalogueRecordsStep(files: map<string, Doc>, stems: seq<string>, i: nat, rows: seq<Record>)
    requires i < |stems| && CatalogueRecords(files, stems[..i]) == Ok(rows)
    ensures RowFor(files, stems[i]).Ok? ==>
      CatalogueRecords(files, stems[..i + 1]) == Ok(rows + [RowFor(files, stems[i]).value])
    ensures RowFor(files, stems[i]).Err? ==> CatalogueRecords(files, stems).Err?
  {
    assert stems[..i + 1][..i] == stems[..i];
    if RowFor(files, stems[i]).Err? {
      CatalogueRecordsSticky(files, stems, i + 1);
    }
  }

  /** Every row of a loaded catalogue carries every column. */
  lemma {:induction false} CatalogueRecordsKeys(files: map<string, Doc>, stems: seq<string>)
    requires CatalogueRecords(files, stems).Ok?
    ensures forall i :: 0 <= i < |stems| ==> CatalogueRecords(files, stems).value[i].Keys == RecordKeys()
  {
    forall i | 0 <= i < |stems| ensures CatalogueRecords(files, stems).value[i].Keys == RecordKeys() {
      CatalogueRecordsRow(files, stems, i);
    }
  }

  class Catalogue {
    var data: seq<Record>

    /** Every row carries every catalogue column. */
    predicate Valid()
      reads this
    {
      forall i :: 0 <= i < |data| ==> data[i].Keys == RecordKeys()
    }

    constructor (rows: seq<Record>)
      requires forall i :: 0 <= i < |rows| ==> rows[i].Keys == RecordKeys()
      ensures Valid() && data == rows
    {
      data := rows;
    }

    /** get_categories: each distinct `group` value, once. */
    function GetCategories(): (cats: set<MetaValue>)
      reads this
      ensures forall g :: g in cats <==> exists i :: 0 <= i < |data| && Field(data[i], "group") == g
    {
      set i | 0 <= i < |data| :: Field(data[i], "group")
    }

    /** get_phenotypes_by_category: the names of the rows of the group, in catalogue order. */
    function GetPhenotypesByCategory(category: string): (names: seq<MetaValue>)
      reads this
      ensures forall x :: x in names <==>
        exists rec :: rec in data && Field(rec, "group") == MStr(category) && Field(rec, "variable_name") == x
      ensures |names| <= |data|
      ensures names == Names(Filter(data, InGroup(category)))
    {
      var kept := Filter(data, InGroup(category));
      assert forall x :: x in Names(kept) <==>
        exists rec :: rec in data && Field(rec, "group") == MStr(category) && Field(rec, "variable_name") == x by {
        forall x {
          NamesOfFilter(data, InGroup(category), x);
        }
      }
      Names(kept)
    }

    /** is_valid_phenotype: the text is some row's variable_name. */
    function IsValidPhenotype(phenotype: string): (valid: bool)
      reads this
      ensures valid <==> exists i :: 0 <= i < |data| && Field(data[i], "variable_name") == MStr(phenotype)
      ensures valid <==> FirstNamed(data, phenotype).Some?
    {
      MStr(phenotype) in Names(data)
    }

    /**
     * get_all_phenotypes: without cancer, only rows whose is_cancer is the text
     * "0"; without neonatal, only rows whose is_adult is the text "1"; asking
     * for Elixhauser or complex phenotypes raises NotImplementedError.  The
     * catalogue itself is not changed.
     */
    function GetAllPhenotypes(includeCancer: bool, includeNeonatal: bool, includeElix: bool, includeComplex: bool)
      : (r: Result<seq<Record>>)
      reads this
      ensures r.Err? <==> includeElix || includeComplex
      ensures r.Err? ==> r.error == NotImplemented
      ensures r.Ok? ==> r.value == Filter(data, Keep(includeCancer, includeNeonatal))
    {
      var df := data;
      var df1 := if includeCancer then df else Filter(df, IsNonCancer);
      var df2 := if includeNeonatal then df1 else Filter(df1, IsAdult);
      if includeElix then Err(NotImplemented)
      else if includeComplex then Err(NotImplemented)
      else if includeCancer && includeNeonatal then
        FilterAll(data, Keep(true, true));
        Ok(df2)
      else if includeCancer then
        FilterCongruent(data, IsAdult, Keep(true, false));
        Ok(df2)
      else if includeNeonatal then
        FilterCongruent(data, IsNonCancer, Keep(false, true));
        Ok(df2)
      else
        FilterTwice(data, IsNonCancer, IsAdult, Keep(false, false));
        Ok(df2)
    }

    /** get_phenotype: the first row with the name; an unknown name is an IndexError. */
    function GetPhenotype(phenotype: string): (r: Result<Record>)
      reads this
      ensures r.Err? <==> !IsValidPhenotype(phenotype)
      ensures r.Err? ==> r.error == IndexError
      ensures r.Ok? ==> r.value in data && Field(r.value, "variable_name") == MStr(phenotype)
      ensures r.Ok? ==> exists i :: (0 <= i < |data| && data[i] == r.value &&
        forall j :: 0 <= j < i ==> Field(data[j], "variable_name") != MStr(phenotype))
    {
      match FirstNamed(data, phenotype)
      case None => Err(IndexError)
      case Some(rec) => Ok(rec)
    }

    /**
     * get_complex_phenotypes: the names of the rows whose complex_logic is not
     * null, in catalogue order, one per row.  An empty catalogue's frame has only
     * the required columns, so selecting complex_logic is a KeyError.
     */
    function GetComplexPhenotypes(): (r: Result<seq<MetaValue>>)
      reads this
      ensures r.Err? <==> |data| == 0
      ensures r.Err? ==> r.error == KeyError
      ensures r.Ok? ==> r.value == Names(Filter(data, HasComplexLogic))
      ensures r.Ok? ==> forall x :: x in r.value <==>
        exists rec :: rec in data && HasComplexLogic(rec) && Field(rec, "variable_name") == x
    {
      if |data| == 0 then Err(KeyError)
      else
        var kept := Filter(data, HasComplexLogic);
        assert forall x :: x in Names(kept) <==>
          exists rec :: rec in data && HasComplexLogic(rec) && Field(rec, "variable_name") == x by {
          forall x {
            NamesOfFilter(data, HasComplexLogic, x);
          }
        }
        Ok(Names(kept))
    }
  }

  /** A row survives get_all_phenotypes exactly when it passes the requested filters. */
  lemma AllPhenotypesMembership(c: Catalogue, includeCancer: bool, includeNeonatal: bool, rec: Record)
    ensures c.GetAllPhenotypes(includeCancer, includeNeonatal, false, false).Ok?
    ensures rec in c.GetAllPhenotypes(includeCancer, includeNeonatal, false, false).value <==>
      rec in c.data && (includeCancer || Field(rec, "is_cancer") == MStr("0")) &&
      (includeNeonatal || Field(rec, "is_adult") == MStr("1"))
  {
    FilterMembership(c.data, Keep(includeCancer, includeNeonatal), rec);
  }

  /**
   * Catalogue(): lists the ".yaml" files, loads each phenotype and appends its
   * row; a failure while loading any of them ends the construction.
   */
  method LoadCatalogue(files: map<string, Doc>, listing: seq<string>) returns (r: Result<Catalogue>)
    ensures r.Err? <==> CatalogueRecords(files, YamlStems(listing)).Err?
    ensures r.Ok? ==> (fresh(r.value) && r.value.Valid() &&
      r.value.data == CatalogueRecords(files, YamlStems(listing)).value)
  {
    var allPhenotypes := YamlStems(listing);
    var df: seq<Record> := [];
    for i := 0 to |allPhenotypes|
      invariant CatalogueRecords(files, allPhenotypes[..i]) == Ok(df)
    {
      // Phenotype(p), then its metadata row
      var row := RowFor(files, allPhenotypes[i]);
      CatalogueRecordsStep(files, allPhenotypes, i, df);
      if row.Err? {
        return Err(row.error);
      }
      df := df + [row.value];
    }
    assert allPhenotypes[..|allPhenotypes|] == allPhenotypes;
    CatalogueRecordsKeys(files, allPhenotypes);
    var c := new Catalogue(df);
    r := Ok(c);
  }
}
