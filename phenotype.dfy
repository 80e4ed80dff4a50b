/**
 * A phenotype definition (phenotype.py): a map from field key to the codes
 * that identify the phenotype in that field, plus a metadata map.  Field keys
 * are UK Biobank field ids or the names "SNOMED-CT", "baseline_fields" and
 * "limits".  A loaded Phenotype is never changed afterwards, so it is a value.
 */
module PhenotypeModel {
  import opened Common
  import Config

  datatype FieldKey = Num(id: int) | Named(text: string)

  const Snomed: FieldKey := Named("SNOMED-CT")
  const BaselineFields: FieldKey := Named("baseline_fields")
  const Limits: FieldKey := Named("limits")

  /** A scalar from the YAML metadata; lists and mappings are `MOther`. */
  datatype MetaValue = MStr(s: string) | MInt(i: int) | MBool(b: bool) | MNull | MOther

  /** One code of a field: `code` and `type` (here `kind`) are always present,
      the other CODE_FIELDS columns may be absent (None). */
  datatype CodeEntry = CodeEntry(
    code: string,
    kind: string,
    ontology: Option<string>,
    description: Option<string>,
    group: Option<string>)

  datatype TimeQualifier = TimeQualifier(kind: string, fieldId: Option<int>)

  datatype FieldMetadata = FieldMetadata(timeQualifier: Option<TimeQualifier>)

  /** `{values: [...], metadata: {...}}`; the metadata block may be absent. */
  datatype FieldDefinition = FieldDefinition(values: seq<CodeEntry>, metadata: Option<FieldMetadata>)

  /** The `definitions` mapping, in file order; keys are distinct as in any mapping. */
  type Definitions = seq<(FieldKey, FieldDefinition)>

  /** The parsed YAML document: its `definitions` and `metadata` blocks. */
  datatype Doc = Doc(definitions: Definitions, metadata: map<string, MetaValue>)

  datatype Flags = Flags(isCancer: bool, isBiomarker: bool, isComplex: bool)

  /** The prescription codes of field 42039 split by ontology. */
  datatype PrescriptionValues = PrescriptionValues(bnf: seq<string>, dmd: seq<string>, welshRead: seq<string>)

  /** One row of `codes_df`: the CODE_FIELDS columns plus the field id. */
  datatype CodeRow = CodeRow(
    code: string,
    description: Option<string>,
    ontology: Option<string>,
    kind: string,
    group: Option<string>,
    field: int)

  datatype Phenotype = Phenotype(
    doc: Doc,
    name: string,
    prescriptions: Option<map<string, seq<string>>>,
    flags: Flags,
    codes: seq<CodeRow>)

  const BiomarkerNames: seq<string> := ["HighLDL", "HighTotChol", "HighTrig", "LowHDL"]

  // ---------------------------------------------------------------------------
  // Lookups

  /** `definitions[k]`, or None when k is not a key. */
  function Lookup(defs: Definitions, k: FieldKey): (r: Option<FieldDefinition>)
    ensures r.Some? <==> exists p :: p in defs && p.0 == k
    ensures r.Some? ==> (k, r.value) in defs
  {
    if |defs| == 0 then None
    else if defs[0].0 == k then Some(defs[0].1)
    else
      assert forall p :: p in defs[1..] ==> p in defs;
      assert forall p :: p in defs && p != defs[0] ==> p in defs[1..];
      Lookup(defs[1..], k)
  }

  /** Python `int(x)` on a field key. */
  function KeyToInt(k: FieldKey): (r: Result<int>)
    ensures k.Num? ==> r == Ok(k.id)
  {
    match k
    case Num(i) => Ok(i)
    case Named(s) => ParseInt(s)
  }

  /** Python `int(v)` on a metadata value. */
  function MetaToInt(v: MetaValue): (r: Result<int>)
    ensures v.MStr? ==> r == ParseInt(v.s)
    ensures v.MNull? || v.MOther? ==> r == Err(TypeError)
  {
    match v
    case MStr(s) => ParseInt(s)
    case MInt(i) => Ok(i)
    case MBool(b) => Ok(if b then 1 else 0)
    case MNull => Err(TypeError)
    case MOther => Err(TypeError)
  }

  // ---------------------------------------------------------------------------
  // get_definition_fields

  /** A key `get_definition_fields` reports: never "limits"; "baseline_fields"
      always; any other key only when it has at least one code. */
  predicate Listed(p: (FieldKey, FieldDefinition)) {
    p.0 != Limits && (p.0 == BaselineFields || |p.1.values| > 0)
  }

  function KeysOf(defs: Definitions): (ks: seq<FieldKey>)
    ensures |ks| == |defs|
    ensures forall i :: 0 <= i < |defs| ==> ks[i] == defs[i].0
  {
    seq(|defs|, i requires 0 <= i < |defs| => defs[i].0)
  }

  /** The reported field keys, in definition order. */
  function DefinitionFields(defs: Definitions): seq<FieldKey>
  {
    KeysOf(Filter(defs, Listed))
  }

  lemma {:induction false} DefinitionFieldsMembership(defs: Definitions, k: FieldKey)
    ensures k in DefinitionFields(defs) <==> exists p :: p in defs && p.0 == k && Listed(p)
  {
    var kept := Filter(defs, Listed);
    forall p | p in defs && p.0 == k && Listed(p)
      ensures k in DefinitionFields(defs)
    {
      FilterMembership(defs, Listed, p);
      var j :| 0 <= j < |kept| && kept[j] == p;
      assert DefinitionFields(defs)[j] == k;
    }
    if k in DefinitionFields(defs) {
      var j :| 0 <= j < |kept| && DefinitionFields(defs)[j] == k;
      FilterMembership(defs, Listed, kept[j]);
    }
  }

  /** "limits" is never reported, "baseline_fields" is reported exactly when it is a
      key, and any other key exactly when some entry for it lists codes. */
  lemma DefinitionFieldsRules(defs: Definitions)
    ensures Limits !in DefinitionFields(defs)
    ensures BaselineFields in DefinitionFields(defs) <==> exists p :: p in defs && p.0 == BaselineFields
    ensures forall k :: k != Limits && k != BaselineFields ==>
      (k in DefinitionFields(defs) <==> exists p :: p in defs && p.0 == k && |p.1.values| > 0)
  {
    DefinitionFieldsMembership(defs, Limits);
    DefinitionFieldsMembership(defs, BaselineFields);
    forall k | k != Limits && k != BaselineFields
      ensures k in DefinitionFields(defs) <==> exists p :: p in defs && p.0 == k && |p.1.values| > 0
    {
      DefinitionFieldsMembership(defs, k);
    }
  }

  /**
   * get_definition_fields(baseline): the `baseline` argument is overwritten with
   * the text 'baseline_fields' before it is tested, so only "limits" is ever
   * ignored and the result does not depend on the argument.
   */
  method GetDefinitionFields(defs: Definitions, baseline: bool) returns (output: seq<FieldKey>)
    ensures output == DefinitionFields(defs)
  {
    var fieldsToIgnore := [Limits];
    output := [];
    var kept: Definitions := [];
    for i := 0 to |defs|
      invariant kept == Filter(defs[..i], Listed)
      invariant output == KeysOf(kept)
    {
      assert defs[..i + 1][..i] == defs[..i];
      var (f, definition) := defs[i];
      if f !in fieldsToIgnore {
        if f == BaselineFields || |definition.values| > 0 {
          output := output + [f];
          kept := kept + [defs[i]];
        }
      }
    }
    assert defs[..|defs|] == defs;
  }

  // ---------------------------------------------------------------------------
  // get_field_definition

  /** The key `get_field_definition` looks up: "SNOMED-CT" and "baseline_fields"
      as given, anything else through int(). */
  function DefinitionKey(fieldId: FieldKey): (r: Result<FieldKey>)
    ensures r.Ok? ==> r.value.Num? || r.value == Snomed || r.value == BaselineFields
  {
    if fieldId == Snomed || fieldId == BaselineFields then Ok(fieldId)
    else match KeyToInt(fieldId)
      case Ok(i) => Ok(Num(i))
      case Err(e) => Err(e)
  }

  /** The stored definition of a reported field, None for an unreported one. */
  function GetFieldDefinition(defs: Definitions, fieldId: FieldKey): (r: Result<Option<FieldDefinition>>)
    ensures r.Err? <==> DefinitionKey(fieldId).Err?
    ensures r.Ok? ==> (r.value.Some? <==> DefinitionKey(fieldId).value in DefinitionFields(defs))
    ensures r.Ok? && r.value.Some? ==> Lookup(defs, DefinitionKey(fieldId).value) == r.value
  {
    match DefinitionKey(fieldId)
    case Err(e) => Err(e)
    case Ok(key) =>
      if key !in DefinitionFields(defs) then Ok(None)
      else
        DefinitionFieldsMembership(defs, key);
        Ok(Lookup(defs, key))
  }

  /** A returned definition belongs to a listed key, so it lists codes unless it is
      "baseline_fields"; a key with no codes gives None. */
  lemma FieldDefinitionNonEmpty(defs: Definitions, i: int)
    requires forall a, b :: 0 <= a < b < |defs| ==> defs[a].0 != defs[b].0
    ensures GetFieldDefinition(defs, Num(i)) == Ok(None) || (
      GetFieldDefinition(defs, Num(i)).Ok? &&
      GetFieldDefinition(defs, Num(i)).value.Some? &&
      |GetFieldDefinition(defs, Num(i)).value.value.values| > 0)
  {
    var r := GetFieldDefinition(defs, Num(i));
    if r.value.Some? {
      DefinitionFieldsMembership(defs, Num(i));
      var p :| p in defs && p.0 == Num(i) && Listed(p);
      var q := (Num(i), r.value.value);
      assert q in defs;
      var a :| 0 <= a < |defs| && defs[a] == p;
      var b :| 0 <= b < |defs| && defs[b] == q;
      assert a == b;
    }
  }

  // ---------------------------------------------------------------------------
  // get_values_for_field

  /** Read codes of field 42040 keep their first five characters; every other
      field's codes lose all '.' characters (ICD-10 "I44.0" becomes "I440"). */
  function NormalizeCode(key: FieldKey, code: string): (r: string)
    ensures key == Num(Config.PrimaryCare) ==> (|code| >= 5 ==> r == code[..5]) && (|code| < 5 ==> r == code)
    ensures key != Num(Config.PrimaryCare) ==> r == Filter(code, Other('.'))
    ensures key != Num(Config.PrimaryCare) ==> '.' !in r && |r| <= |code|
    ensures key != Num(Config.PrimaryCare) && '.' !in code ==> r == code
  {
    if key == Num(Config.PrimaryCare) then Take(code, 5)
    else
      RemoveCharIsFilter(code, '.');
      RemoveChar(code, '.')
  }

  /** An ICD-10 code loses its dot: "I44.0" of field 41202 becomes "I440". */
  lemma NormalizeIcd10Example()
    ensures NormalizeCode(Num(41202), "I44.0") == "I440"
  {
    var code := "I44.0";
    assert code[1..] == "44.0" && code[2..] == "4.0" && code[3..] == ".0" && code[4..] == "0" && code[5..] == "";
  }

  /** A read code of field 42040 keeps its first five characters. */
  lemma NormalizeReadExample()
    ensures NormalizeCode(Num(42040), "XaIP9.00") == "XaIP9"
  {
  }

  /** The test "the entry carries this type tag". */
  function Tagged(tag: string): CodeEntry -> bool { (e: CodeEntry) => e.kind == tag }

  /** The normalised code of an entry. */
  function Normalized(key: FieldKey): CodeEntry -> string { (e: CodeEntry) => NormalizeCode(key, e.code) }

  /** The normalised codes of the entries whose type equals `tag`, in order. */
  function SelectCodes(values: seq<CodeEntry>, tag: string, key: FieldKey): seq<string>
  {
    if |values| == 0 then []
    else
      var last := values[|values| - 1];
      SelectCodes(values[..|values| - 1], tag, key) + (if last.kind == tag then [NormalizeCode(key, last.code)] else [])
  }

  /** A code is selected exactly when some entry carrying the requested tag normalises to it. */
  lemma {:induction false} SelectCodesMembership(values: seq<CodeEntry>, tag: string, key: FieldKey, x: string)
    ensures x in SelectCodes(values, tag, key) <==>
      exists e :: e in values && e.kind == tag && x == NormalizeCode(key, e.code)
  {
    if |values| > 0 {
      var init, last := values[..|values| - 1], values[|values| - 1];
      SelectCodesMembership(init, tag, key, x);
      assert values == init + [last];
      if x in SelectCodes(init, tag, key) {
        var e :| e in init && e.kind == tag && x == NormalizeCode(key, e.code);
        assert e in values;
      }
    }
  }

  /** The selection keeps the tagged entries in definition order, one normalised code per entry. */
  lemma {:induction false} SelectCodesInOrder(values: seq<CodeEntry>, tag: string, key: FieldKey)
    ensures SelectCodes(values, tag, key) == Map(Filter(values, Tagged(tag)), Normalized(key))
  {
    if |values| > 0 {
      var init, last := values[..|values| - 1], values[|values| - 1];
      SelectCodesInOrder(init, tag, key);
      var before := Filter(init, Tagged(tag));
      if last.kind == tag {
        assert Filter(values, Tagged(tag)) == before + [last];
        var m := Map(before + [last], Normalized(key));
        assert m == Map(before, Normalized(key)) + [NormalizeCode(key, last.code)];
      } else {
        assert Filter(values, Tagged(tag)) == before;
      }
    }
  }

  /** When every entry is tagged "any" or "prevalent", the two selections share the
      entries between them: each entry lands in exactly one of the two lists. */
  lemma {:induction false} PrevalencePartition(values: seq<CodeEntry>, key: FieldKey)
    requires forall e :: e in values ==> e.kind == "any" || e.kind == "prevalent"
    ensures |SelectCodes(values, "any", key)| + |SelectCodes(values, "prevalent", key)| == |values|
  {
    if |values| > 0 {
      var init := values[..|values| - 1];
      assert forall e :: e in init ==> e in values;
      assert values[|values| - 1] in values;
      PrevalencePartition(init, key);
    }
  }

  /**
   * get_values_for_field(field_id, type): None for "baseline_fields" and "limits";
   * otherwise the id is converted with int() (except "SNOMED-CT"), a missing key
   * raises KeyError, and the result is the normalised codes of the entries whose
   * type equals `tag` (the caller's default is "any").
   */
  function GetValuesForField(defs: Definitions, fieldId: FieldKey, tag: string): (r: Result<Option<seq<string>>>)
    ensures fieldId == BaselineFields || fieldId == Limits ==> r == Ok(None)
    ensures fieldId.Num? ==> (r.Ok? <==> Lookup(defs, fieldId).Some?)
    ensures r.Ok? && r.value.Some? && fieldId != Snomed ==> KeyToInt(fieldId).Ok?
    ensures r.Ok? && r.value.Some? ==>
      var key := if fieldId == Snomed then Snomed else Num(KeyToInt(fieldId).value);
      Lookup(defs, key).Some? &&
      forall x :: x in r.value.value <==>
        exists e :: e in Lookup(defs, key).value.values && e.kind == tag && x == NormalizeCode(key, e.code)
    ensures r.Ok? && r.value.Some? ==>
      var key := if fieldId == Snomed then Snomed else Num(KeyToInt(fieldId).value);
      r.value.value == Map(Filter(Lookup(defs, key).value.values, Tagged(tag)), Normalized(key))
    ensures r.Err? ==> r.error == ValueError || r.error == KeyError
  {
    if fieldId == BaselineFields || fieldId == Limits then Ok(None)
    else
      var k := if fieldId == Snomed then Ok(Snomed) else match KeyToInt(fieldId)
        case Ok(i) => Ok(Num(i))
        case Err(e) => Err(e);
      if k.Err? then Err(k.error)
      else
      var key := k.value;
      match Lookup(defs, key)
      case None => Err(KeyError)
      case Some(definition) =>
        assert forall x :: x in SelectCodes(definition.values, tag, key) <==>
          exists e :: e in definition.values && e.kind == tag && x == NormalizeCode(key, e.code) by {
          forall x {
            SelectCodesMembership(definition.values, tag, key, x);
          }
        }
        SelectCodesInOrder(definition.values, tag, key);
        Ok(Some(SelectCodes(definition.values, tag, key)))
  }

  // ---------------------------------------------------------------------------
  // get_age_field_id

  /** The field holding the age for an age-qualified field: the definition must
      exist (else TypeError on None), carry a time qualifier (else
      AssertionError) of type "age" (else AssertionError) with a field_id (else KeyError). */
  function GetAgeFieldId(defs: Definitions, fieldId: FieldKey): (r: Result<int>)
    ensures r.Ok? ==>
      var d := GetFieldDefinition(defs, fieldId);
      d.Ok? && d.value.Some? && d.value.value.metadata.Some? &&
      d.value.value.metadata.value.timeQualifier == Some(TimeQualifier("age", Some(r.value)))
    ensures GetFieldDefinition(defs, fieldId) == Ok(None) ==> r == Err(TypeError)
    ensures GetFieldDefinition(defs, fieldId).Err? ==> r == Err(GetFieldDefinition(defs, fieldId).error)
    ensures var d := GetFieldDefinition(defs, fieldId);
      d.Ok? && d.value.Some? ==>
        var meta := d.value.value.metadata;
        (meta.None? ==> r == Err(KeyError)) &&
        (meta.Some? && meta.value.timeQualifier.None? ==> r == Err(AssertionError)) &&
        (meta.Some? && meta.value.timeQualifier.Some? ==>
          var tq := meta.value.timeQualifier.value;
          (tq.kind != "age" ==> r == Err(AssertionError)) &&
          (tq.kind == "age" && tq.fieldId.None? ==> r == Err(KeyError)) &&
          (tq.kind == "age" && tq.fieldId.Some? ==> r == Ok(tq.fieldId.value)))
  {
    match GetFieldDefinition(defs, fieldId)
    case Err(e) => Err(e)
    case Ok(None) => Err(TypeError)
    case Ok(Some(definition)) =>
      match definition.metadata
      case None => Err(KeyError)
      case Some(meta) =>
        match meta.timeQualifier
        case None => Err(AssertionError)
        case Some(tq) =>
          if tq.kind != "age" then Err(AssertionError)
          else match tq.fieldId
            case None => Err(KeyError)
            case Some(a) => Ok(a)
  }

  // ---------------------------------------------------------------------------
  // init_flags

  /**
   * init_flags: biomarker by name; cancer is bool(int(is_cancer)), False when the
   * key is absent, and a bad value propagates its error; complex when the
   * `complex_logic` key exists.
   */
  function InitFlags(name: string, metadata: map<string, MetaValue>): (r: Result<Flags>)
    ensures r.Err? <==> "is_cancer" in metadata && MetaToInt(metadata["is_cancer"]).Err?
    ensures r.Ok? ==> (r.value.isBiomarker <==> name in BiomarkerNames)
    ensures r.Ok? ==> (r.value.isComplex <==> "complex_logic" in metadata)
    ensures r.Ok? ==> (r.value.isCancer <==>
      "is_cancer" in metadata && MetaToInt(metadata["is_cancer"]).value != 0)
  {
    var isBiomarker := name in BiomarkerNames;
    var isComplex := "complex_logic" in metadata;
    if "is_cancer" !in metadata then Ok(Flags(false, isBiomarker, isComplex))
    else match MetaToInt(metadata["is_cancer"])
      case Err(e) => Err(e)
      case Ok(v) => Ok(Flags(v != 0, isBiomarker, isComplex))
  }

  /** A textual flag "v" makes the phenotype a cancer phenotype exactly when v != 0. */
  lemma CancerFlagFromText(name: string, metadata: map<string, MetaValue>, v: int)
    requires "is_cancer" in metadata && metadata["is_cancer"] == MStr(ShowInt(v))
    ensures InitFlags(name, metadata).Ok?
    ensures InitFlags(name, metadata).value.isCancer <==> v != 0
  {
    ParseShowInt(v);
  }

  // ---------------------------------------------------------------------------
  // get_prescription_values / init_prescriptions

  /** Codes of the entries whose ontology is `ont`, in order. */
  function OntologyCodes(values: seq<CodeEntry>, ont: string): seq<string>
  {
    if |values| == 0 then []
    else
      var last := values[|values| - 1];
      OntologyCodes(values[..|values| - 1], ont) + (if last.ontology == Some(ont) then [last.code] else [])
  }

  lemma {:induction false} OntologyCodesMembership(values: seq<CodeEntry>, ont: string, x: string)
    ensures x in OntologyCodes(values, ont) <==> exists e :: e in values && e.ontology == Some(ont) && e.code == x
  {
    if |values| > 0 {
      var init, last := values[..|values| - 1], values[|values| - 1];
      OntologyCodesMembership(init, ont, x);
      assert values == init + [last];
      if x in OntologyCodes(init, ont) {
        var e :| e in init && e.ontology == Some(ont) && e.code == x;
        assert e in values;
      }
    }
  }

  predicate PrescriptionOntology(e: CodeEntry) {
    e.ontology == Some("bnf") || e.ontology == Some("dmd") || e.ontology == Some("welsh_read")
  }

  /** The three lists together hold one code per bnf/dmd/welsh_read entry; other
      ontologies are dropped. */
  lemma {:induction false} OntologyPartition(values: seq<CodeEntry>)
    ensures |OntologyCodes(values, "bnf")| + |OntologyCodes(values, "dmd")| + |OntologyCodes(values, "welsh_read")|
      == |Filter(values, PrescriptionOntology)|
  {
    if |values| > 0 {
      OntologyPartition(values[..|values| - 1]);
    }
  }

  /** The codes of field 42039, or the empty list when the field is absent. */
  function PrescriptionEntries(defs: Definitions): seq<CodeEntry>
  {
    match Lookup(defs, Num(Config.Prescriptions))
    case None => []
    case Some(d) => d.values
  }

  /**
   * get_prescription_values: None when field 42039 is absent or has no codes;
   * otherwise the bnf, dmd and welsh_read codes in order.  Reading the ontology
   * of an entry that has none raises KeyError.
   */
  function GetPrescriptionValues(defs: Definitions): (r: Result<Option<PrescriptionValues>>)
    ensures r == Ok(None) <==> |PrescriptionEntries(defs)| == 0
    ensures r.Err? <==> exists e :: e in PrescriptionEntries(defs) && e.ontology.None?
    ensures r.Err? ==> r.error == KeyError
    ensures r.Ok? && r.value.Some? ==>
      var all := PrescriptionEntries(defs);
      r.value.value == PrescriptionValues(OntologyCodes(all, "bnf"), OntologyCodes(all, "dmd"), OntologyCodes(all, "welsh_read"))
  {
    var all := PrescriptionEntries(defs);
    if |all| == 0 then Ok(None)
    else if exists e :: e in all && e.ontology.None? then Err(KeyError)
    else Ok(Some(PrescriptionValues(OntologyCodes(all, "bnf"), OntologyCodes(all, "dmd"), OntologyCodes(all, "welsh_read"))))
  }

  /** init_prescriptions: the three lists keyed "bnf", "dmd", "welsh_read", or None. */
  function InitPrescriptions(defs: Definitions): (r: Result<Option<map<string, seq<string>>>>)
    ensures r.Ok? <==> GetPrescriptionValues(defs).Ok?
    ensures r.Ok? ==> (r.value.Some? <==> GetPrescriptionValues(defs).value.Some?)
    ensures r.Ok? && r.value.Some? ==>
      var v := GetPrescriptionValues(defs).value.value;
      r.value.value.Keys == {"bnf", "dmd", "welsh_read"} &&
      r.value.value["bnf"] == v.bnf && r.value.value["dmd"] == v.dmd && r.value.value["welsh_read"] == v.welshRead
    ensures r.Ok? ==> (r.value.None? <==> |PrescriptionEntries(defs)| == 0)
  {
    match GetPrescriptionValues(defs)
    case Err(e) => Err(e)
    case Ok(None) => Ok(None)
    case Ok(Some(v)) => Ok(Some(map["bnf" := v.bnf, "dmd" := v.dmd, "welsh_read" := v.welshRead]))
  }

  // ---------------------------------------------------------------------------
  // get_codes_df

  /** A standard field with at least one code contributes a frame to codes_df. */
  predicate HasFrame(p: (FieldKey, FieldDefinition)) {
    p.0.Num? && p.0.id in Config.StandardFields && |p.1.values| > 0
  }

  function RowOf(e: CodeEntry, field: int): CodeRow {
    CodeRow(e.code, e.description, e.ontology, e.kind, e.group, field)
  }

  /** The frame of one field: one row per code, tagged with the field id. */
  function Frame(values: seq<CodeEntry>, field: int): (rows: seq<CodeRow>)
    ensures |rows| == |values|
    ensures forall i :: 0 <= i < |values| ==> rows[i] == RowOf(values[i], field)
  {
    seq(|values|, i requires 0 <= i < |values| => RowOf(values[i], field))
  }

  /** The frames `get_codes_df` concatenates, in definition order. */
  function Frames(defs: Definitions): seq<seq<CodeRow>>
  {
    if |defs| == 0 then []
    else
      var last := defs[|defs| - 1];
      Frames(defs[..|defs| - 1]) + (if HasFrame(last) then [Frame(last.1.values, last.0.id)] else [])
  }

  /** pd.concat of the frames; concatenating no frames raises ValueError. */
  function CodesTable(defs: Definitions): Result<seq<CodeRow>>
  {
    var frames := Frames(defs);
    if |frames| == 0 then Err(ValueError) else Ok(Flatten(frames))
  }

  lemma {:induction false} FramesEmpty(defs: Definitions)
    ensures |Frames(defs)| == 0 <==> forall p :: p in defs ==> !HasFrame(p)
  {
    if |defs| > 0 {
      var init := defs[..|defs| - 1];
      FramesEmpty(init);
      assert defs == init + [defs[|defs| - 1]];
    }
  }

  lemma FrameRows(values: seq<CodeEntry>, field: int, row: CodeRow)
    ensures row in Frame(values, field) <==> exists e :: e in values && row == RowOf(e, field)
  {
    var rows := Frame(values, field);
    if row in rows {
      var j :| 0 <= j < |values| && rows[j] == row;
      assert values[j] in values;
    }
    if exists e :: e in values && row == RowOf(e, field) {
      var e :| e in values && row == RowOf(e, field);
      var j :| 0 <= j < |values| && values[j] == e;
      assert rows[j] == row;
    }
  }

  /** Every row of codes_df comes from a code of a standard, non-empty field and
      carries that field's id; every such code has its row. */
  lemma {:induction false} CodesTableRows(defs: Definitions, row: CodeRow)
    ensures row in Flatten(Frames(defs)) <==>
      exists p, e :: p in defs && HasFrame(p) && e in p.1.values && row == RowOf(e, p.0.id)
  {
    if |defs| > 0 {
      var init, last := defs[..|defs| - 1], defs[|defs| - 1];
      CodesTableRows(init, row);
      assert defs == init + [last];
      var extra := if HasFrame(last) then [Frame(last.1.values, last.0.id)] else [];
      FlattenAppend(Frames(init), extra);
      if HasFrame(last) {
        assert Flatten(extra) == Frame(last.1.values, last.0.id);
        FrameRows(last.1.values, last.0.id, row);
      }
      if row in Flatten(Frames(init)) {
        var p, e :| p in init && HasFrame(p) && e in p.1.values && row == RowOf(e, p.0.id);
        assert p in defs;
      }
    }
  }

  /** The rows of codes_df name only standard fields. */
  lemma CodesTableStandard(defs: Definitions)
    ensures CodesTable(defs).Ok? ==> forall row :: row in CodesTable(defs).value ==> row.field in Config.StandardFields
    ensures CodesTable(defs).Err? <==> forall p :: p in defs ==> !HasFrame(p)
  {
    FramesEmpty(defs);
    forall row | row in Flatten(Frames(defs))
      ensures row.field in Config.StandardFields
    {
      CodesTableRows(defs, row);
    }
  }

  /** get_codes_df: one frame per standard field with codes, then pd.concat. */
  method GetCodesDf(defs: Definitions) returns (r: Result<seq<CodeRow>>)
    ensures r == CodesTable(defs)
  {
    var dfs: seq<seq<CodeRow>> := [];
    for i := 0 to |defs|
      invariant dfs == Frames(defs[..i])
    {
      assert defs[..i + 1][..i] == defs[..i];
      var (key, definition) := defs[i];
      if !(key.Num? && key.id in Config.StandardFields) {
        continue;
      }
      if |definition.values| == 0 {
        continue;
      }
      var df := Frame(definition.values, key.id);
      dfs := dfs + [df];
    }
    assert defs[..|defs|] == defs;
    if |dfs| == 0 {
      r := Err(ValueError);
    } else {
      r := Ok(Flatten(dfs));
    }
  }

  // ---------------------------------------------------------------------------
  // Construction

  /**
   * Phenotype(stem): a stem with no definition file raises PHENOTYPE_NOT_FOUND;
   * then the name is metadata['variable_name'], and the prescriptions, the
   * flags and codes_df are computed in that order, the first failure ending the
   * construction.
   */
  function Load(files: map<string, Doc>, stem: string): (r: Result<Phenotype>)
    ensures r == Err(PhenotypeNotFound) <==> stem !in files
    ensures r.Ok? ==>
      stem in files && r.value.doc == files[stem] &&
      "variable_name" in files[stem].metadata && files[stem].metadata["variable_name"] == MStr(r.value.name) &&
      InitPrescriptions(files[stem].definitions) == Ok(r.value.prescriptions) &&
      InitFlags(r.value.name, files[stem].metadata) == Ok(r.value.flags) &&
      CodesTable(files[stem].definitions) == Ok(r.value.codes)
    ensures stem in files && "variable_name" !in files[stem].metadata ==> r == Err(KeyError)
  {
    if stem !in files then Err(PhenotypeNotFound)
    else
      var doc := files[stem];
      if "variable_name" !in doc.metadata then Err(KeyError)
      else match doc.metadata["variable_name"]
        case MStr(name) =>
          (match InitPrescriptions(doc.definitions)
           case Err(e) => Err(e)
           case Ok(prescriptions) =>
             match InitFlags(name, doc.metadata)
             case Err(e) => Err(e)
             case Ok(flags) =>
               match CodesTable(doc.definitions)
               case Err(e) => Err(e)
               case Ok(codes) => Ok(Phenotype(doc, name, prescriptions, flags, codes)))
        case _ => Err(Unsupported)
  }
}
