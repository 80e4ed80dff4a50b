/**
 * Date utilities (dates.py): placeholder-date filtering of data frames,
 * the query text and row selection of get_phenotype_first, the date-of-death
 * lookup, and the minimum censoring date.
 */
module Dates {
  import opened Common
  import opened Extraction
  import opened BaselineCohort
  import opened PhenotypeFirstTable
  import Config

  // ---------------------------------------------------------------------------
  // Reading date texts

  /** datetime.strptime(x, "%Y-%m-%d").date(): ValueError unless x spells a date. */
  function Strptime(x: string): Result<Date>
  {
    match ParseIsoDate(x)
    case Some(d) => Ok(d)
    case None => Err(ValueError)
  }

  /** The list comprehension that parses every exclusion text; the first bad text raises. */
  function ParseAll(texts: seq<string>): (r: Result<seq<Date>>)
    ensures r.Ok? <==> forall i :: 0 <= i < |texts| ==> Strptime(texts[i]).Ok?
    ensures r.Ok? ==> |r.value| == |texts| && forall i :: 0 <= i < |texts| ==> Strptime(texts[i]) == Ok(r.value[i])
  {
    if |texts| == 0 then Ok([])
    else
      match ParseAll(texts[..|texts| - 1])
      case Err(e) => Err(e)
      case Ok(ds) =>
        match Strptime(texts[|texts| - 1])
        case Err(e) => Err(e)
        case Ok(d) => Ok(ds + [d])
  }

  /**
   * The dates UK Biobank uses for a missing (1900, 1901) or not yet known
   * (2037-07-07) date, as 'YYYY-MM-DD' texts; PlaceholderTexts spells them out.
   */
  const UkbPlaceholders: seq<string> := [PaddedIso(Date(1900, 1, 1)), PaddedIso(Date(1901, 1, 1)), PaddedIso(Date(2037, 7, 7))]
  /** The HES null (1800), invalid (1801) and placeholder (2037-07-07) dates. */
  const HesPlaceholders: seq<string> := [PaddedIso(Date(1800, 1, 1)), PaddedIso(Date(1801, 1, 1)), PaddedIso(Date(2037, 7, 7))]
  lemma PlaceholderTexts()
    ensures UkbPlaceholders == ["1900-01-01", "1901-01-01", "2037-07-07"]
    ensures HesPlaceholders == ["1800-01-01", "1801-01-01", "2037-07-07"]
  {
    assert PaddedIso(Date(1900, 1, 1)) == "1900-01-01";
    assert PaddedIso(Date(1901, 1, 1)) == "1901-01-01";
    assert PaddedIso(Date(2037, 7, 7)) == "2037-07-07";
    assert PaddedIso(Date(1800, 1, 1)) == "1800-01-01";
    assert PaddedIso(Date(1801, 1, 1)) == "1801-01-01";
  }

  /** The four main HES admitted-patient-care date columns. */
  const HesDateFields: seq<string> := ["admidate", "disdate", "epistart", "epiend"]

  /** strptime reads back the text strftime writes for a valid date. */
  lemma StrptimePaddedIso(d: Date)
    requires ValidDate(d)
    ensures Strptime(PaddedIso(d)) == Ok(d)
  {
    ParsePaddedIso(d);
  }

  /** Every text parses as the date at the same place. */
  lemma {:induction false} ParseAllAs(texts: seq<string>, ds: seq<Date>)
    requires |texts| == |ds| && forall i :: 0 <= i < |texts| ==> Strptime(texts[i]) == Ok(ds[i])
    ensures ParseAll(texts) == Ok(ds)
  {
    if |texts| > 0 {
      var n := |texts|;
      ParseAllAs(texts[..n - 1], ds[..n - 1]);
      assert ds[..n - 1] + [ds[n - 1]] == ds;
    }
  }

  /** Three dates written by strftime read back as themselves. */
  lemma PaddedTriple(a: Date, b: Date, c: Date)
    requires ValidDate(a) && ValidDate(b) && ValidDate(c)
    ensures ParseAll([PaddedIso(a), PaddedIso(b), PaddedIso(c)]) == Ok([a, b, c])
  {
    StrptimePaddedIso(a);
    StrptimePaddedIso(b);
    StrptimePaddedIso(c);
    ParseAllAs([PaddedIso(a), PaddedIso(b), PaddedIso(c)], [a, b, c]);
  }

  /** The UK Biobank exclusion list reads as the dates it names. */
  lemma UkbPlaceholderDates()
    ensures ParseAll(UkbPlaceholders) == Ok([Date(1900, 1, 1), Date(1901, 1, 1), Date(2037, 7, 7)])
  {
    PaddedTriple(Date(1900, 1, 1), Date(1901, 1, 1), Date(2037, 7, 7));
  }

  /** The HES exclusion list reads as the dates it names. */
  lemma HesPlaceholderDates()
    ensures ParseAll(HesPlaceholders) == Ok([Date(1800, 1, 1), Date(1801, 1, 1), Date(2037, 7, 7)])
  {
    PaddedTriple(Date(1800, 1, 1), Date(1801, 1, 1), Date(2037, 7, 7));
  }

  // ---------------------------------------------------------------------------
  // Data frames

  /**
   * A data frame: its column names and its rows. A cell reader `cell(x, c)`
   * gives the date in column c of row x, None for a missing value.
   */
  datatype Frame<R> = Frame(columns: set<string>, rows: seq<R>)

  /** `~df[column].isin(ds)`: a missing value is never in the list. */
  function NotExcluded<R>(cell: (R, string) -> Option<Date>, column: string, ds: seq<Date>): R -> bool
  {
    (x: R) => !(cell(x, column).Some? && cell(x, column).value in ds)
  }

  /** clean_dates_UKB: parse the exclusion texts, then drop the rows whose column holds one of them. */
  function CleanDatesUkb<R>(df: Frame<R>, cell: (R, string) -> Option<Date>, dateField: string, dates: seq<string>): Result<Frame<R>>
  {
    match ParseAll(dates)
    case Err(e) => Err(e)
    case Ok(ds) =>
      if dateField !in df.columns then Err(KeyError)
      else Ok(Frame(df.columns, Filter(df.rows, NotExcluded(cell, dateField, ds))))
  }

  /**
   * clean_dates_UKB removes exactly the rows whose date column holds an
   * excluded date and keeps every other row; a bad exclusion text raises
   * ValueError and a missing column KeyError.
   */
  lemma CleanDatesUkbExact<R>(df: Frame<R>, cell: (R, string) -> Option<Date>, dateField: string, dates: seq<string>, x: R)
    ensures var r := CleanDatesUkb(df, cell, dateField, dates);
      (r.Err? <==> ParseAll(dates).Err? || dateField !in df.columns) &&
      (ParseAll(dates).Ok? && dateField !in df.columns ==> r == Err(KeyError)) &&
      (r.Ok? ==> (r.value.columns == df.columns &&
        (x in r.value.rows <==> (x in df.rows && !(cell(x, dateField).Some? && cell(x, dateField).value in ParseAll(dates).value))) &&
        |r.value.rows| == Count(df.rows, NotExcluded(cell, dateField, ParseAll(dates).value))))
  {
    if ParseAll(dates).Ok? && dateField in df.columns {
      var keep := NotExcluded(cell, dateField, ParseAll(dates).value);
      FilterMembership(df.rows, keep, x);
      FilterCount(df.rows, keep);
    }
  }

  /** The HES rule for a row: no listed column that the frame has holds an excluded date. */
  function KeepHes<R>(cell: (R, string) -> Option<Date>, fields: seq<string>, columns: set<string>, ds: seq<Date>): R -> bool
  {
    (x: R) => forall c :: c in fields && c in columns ==> !(cell(x, c).Some? && cell(x, c).value in ds)
  }

  /** What clean_dates_HES returns: absent columns are skipped, not errors. */
  function CleanedHes<R>(df: Frame<R>, cell: (R, string) -> Option<Date>, dateFields: seq<string>, dates: seq<string>): Result<Frame<R>>
  {
    match ParseAll(dates)
    case Err(e) => Err(e)
    case Ok(ds) => Ok(Frame(df.columns, Filter(df.rows, KeepHes(cell, dateFields, df.columns, ds))))
  }

  /** clean_dates_HES: the frame is filtered column by column; a KeyError skips that column. */
  method CleanDatesHes<R>(df: Frame<R>, cell: (R, string) -> Option<Date>, dateFields: seq<string>, dates: seq<string>)
    returns (r: Result<Frame<R>>)
    ensures r == CleanedHes(df, cell, dateFields, dates)
  {
    var parsed := ParseAll(dates);
    if parsed.Err? {
      return Err(parsed.error);
    }
    var ds := parsed.value;
    var rows := df.rows;
    FilterAll(df.rows, KeepHes(cell, dateFields[..0], df.columns, ds));
    for i := 0 to |dateFields|
      invariant rows == Filter(df.rows, KeepHes(cell, dateFields[..i], df.columns, ds))
    {
      var c := dateFields[i];
      assert dateFields[..i + 1] == dateFields[..i] + [c];
      if c in df.columns {
        FilterTwice(df.rows, KeepHes(cell, dateFields[..i], df.columns, ds), NotExcluded(cell, c, ds),
                    KeepHes(cell, dateFields[..i + 1], df.columns, ds));
        rows := Filter(rows, NotExcluded(cell, c, ds));
      } else {
        FilterCongruent(df.rows, KeepHes(cell, dateFields[..i], df.columns, ds), KeepHes(cell, dateFields[..i + 1], df.columns, ds));
      }
    }
    assert dateFields[..|dateFields|] == dateFields;
    r := Ok(Frame(df.columns, rows));
  }

  /**
   * clean_dates_HES keeps a row exactly when none of the listed columns that
   * the frame has holds an excluded date; only a bad exclusion text fails.
   */
  lemma CleanedHesExact<R>(df: Frame<R>, cell: (R, string) -> Option<Date>, dateFields: seq<string>, dates: seq<string>, x: R)
    ensures var r := CleanedHes(df, cell, dateFields, dates);
      (r.Err? <==> ParseAll(dates).Err?) &&
      (r.Ok? ==> (r.value.columns == df.columns &&
        (x in r.value.rows <==> (x in df.rows &&
          forall c :: c in dateFields && c in df.columns ==> !(cell(x, c).Some? && cell(x, c).value in ParseAll(dates).value)))))
  {
    if ParseAll(dates).Ok? {
      FilterMembership(df.rows, KeepHes(cell, dateFields, df.columns, ParseAll(dates).value), x);
    }
  }

  // ---------------------------------------------------------------------------
  // get_phenotype_first: the query text

  /** The `phenotypes` argument: None, a lone name, or a list of names. */
  datatype PhenotypesArg = AllPhenotypes | Lone(name: string) | Listed(names: seq<string>)

  /** A lone string is coerced to a one-element list. */
  function PhenotypeNames(p: PhenotypesArg): (r: Option<seq<string>>)
    ensures p.AllPhenotypes? <==> r.None?
    ensures p.Lone? ==> r == Some([p.name])
    ensures p.Listed? ==> r == Some(p.names)
  {
    match p
    case AllPhenotypes => None
    case Lone(s) => Some([s])
    case Listed(ns) => Some(ns)
  }

  /** Python's str(tuple(xs)) for str items free of quotes and backslashes. */
  function PyTupleRepr(xs: seq<string>): string
  {
    if |xs| == 0 then "()"
    else if |xs| == 1 then "(" + Quote(xs[0]) + ",)"
    else "(" + Join(Map(xs, Quote), ", ") + ")"
  }

  /** The text of an IN list the query needs: the tuple text, without the trailing comma of a one-element tuple. */
  function InList(xs: seq<string>): string
  {
    if |xs| == 1 then "(" + Quote(xs[0]) + ")" else PyTupleRepr(xs)
  }

  function TrimSpaces(t: string): (r: string)
    ensures |t| > 0 && t[0] != ' ' ==> r == t
  {
    if |t| > 0 && t[0] == ' ' then TrimSpaces(t[1..]) else t
  }

  predicate IsQuoted(t: string)
  {
    |t| >= 2 && t[0] == '\'' && t[|t| - 1] == '\''
  }

  /**
   * MySQL's reading of the list after IN, for quoted items free of ',':
   * a parenthesised, comma-separated, non-empty list of quoted texts. An
   * empty list or an empty item (a trailing comma) is a syntax error.
   */
  function ReadInList(s: string): Result<seq<string>>
  {
    if |s| < 2 || s[0] != '(' || s[|s| - 1] != ')' then Err(SqlError)
    else
      var items := Map(Split(s[1..|s| - 1], ','), TrimSpaces);
      if forall i :: 0 <= i < |items| ==> IsQuoted(items[i]) then Ok(Map(items, Unwrap))
      else Err(SqlError)
  }

  predicate CommaFree(xs: seq<string>)
  {
    forall i :: 0 <= i < |xs| ==> ',' !in xs[i]
  }

  /** As written: the one-element tuple text `('x',)` is rejected by MySQL. */
  lemma OneElementTupleRejected(x: string)
    requires ',' !in x
    ensures PyTupleRepr([x]) == "(" + Quote(x) + ",)"
    ensures ReadInList(PyTupleRepr([x])) == Err(SqlError)
  {
    var s := PyTupleRepr([x]);
    assert s[1..|s| - 1] == Quote(x) + [','] + "";
    SplitAfterSeparator(Quote(x), ',', "");
    var items := Map(Split(s[1..|s| - 1], ','), TrimSpaces);
    assert items[1] == "";
  }

  /** An empty list gives `IN ()`, a syntax error, whichever text is used. */
  lemma EmptyListRejected()
    ensures ReadInList(InList([])) == Err(SqlError)
  {
    var s := InList([]);
    assert s == "()" && s[1..|s| - 1] == "";
    var items := Map(Split("", ','), TrimSpaces);
    assert items[0] == TrimSpaces("") == "";
  }

  function Spaced(t: string): string { " " + t }

  /** Text put before a join lands before its first item. */
  lemma JoinPrefixHead(x: string, zs: seq<string>, sep: string)
    requires |zs| >= 1
    ensures x + Join(zs, sep) == Join([x + zs[0]] + zs[1..], sep)
  {
    var ws := [x + zs[0]] + zs[1..];
    assert ws[1..] == zs[1..];
    if |zs| > 1 {
      var r := Join(zs[1..], sep);
      assert x + (zs[0] + sep + r) == (x + zs[0]) + sep + r;
    }
  }

  /** Joining with ", " is joining with "," after a space was put before every item but the first. */
  lemma {:induction false} JoinCommaSpace(ys: seq<string>)
    requires |ys| >= 1
    ensures Join(ys, ", ") == Join([ys[0]] + Map(ys[1..], Spaced), ",")
  {
    if |ys| >= 2 {
      JoinCommaSpace(ys[1..]);
      assert ys[1..][1..] == ys[2..];
      var rest := [ys[1]] + Map(ys[2..], Spaced);
      JoinPrefixHead(" ", rest, ",");
      assert [" " + ys[1]] + rest[1..] == Map(ys[1..], Spaced);
      var whole := [ys[0]] + Map(ys[1..], Spaced);
      assert whole[1..] == Map(ys[1..], Spaced);
    }
  }

  /** Reading back quoted items, each possibly preceded by spaces. */
  lemma ReadQuotedItems(xs: seq<string>, qs: seq<string>, s: string)
    requires |xs| >= 1 && CommaFree(xs)
    requires |qs| == |xs|
    requires forall i :: 0 <= i < |qs| ==> TrimSpaces(qs[i]) == Quote(xs[i]) && ',' !in qs[i]
    requires s == "(" + Join(qs, ",") + ")"
    ensures ReadInList(s) == Ok(xs)
  {
    assert s[1..|s| - 1] == Join(qs, [',']);
    SplitJoin(qs, ',');
    var items := Map(qs, TrimSpaces);
    assert forall i :: 0 <= i < |items| ==> items[i] == Quote(xs[i]);
    assert forall i :: 0 <= i < |items| ==> IsQuoted(items[i]);
    assert Map(items, Unwrap) == xs;
  }

  /** A tuple text of two or more items reads back as the items. */
  lemma TupleReadsBack(xs: seq<string>)
    requires |xs| >= 2 && CommaFree(xs)
    ensures ReadInList(PyTupleRepr(xs)) == Ok(xs)
  {
    var quoted := Map(xs, Quote);
    JoinCommaSpace(quoted);
    assert quoted[1..] == Map(xs[1..], Quote);
    var qs := [quoted[0]] + Map(quoted[1..], Spaced);
    forall i | 0 <= i < |qs| ensures TrimSpaces(qs[i]) == Quote(xs[i]) && ',' !in qs[i] {
      if i > 0 {
        assert qs[i] == " " + Quote(xs[i]);
        assert (" " + Quote(xs[i]))[1..] == Quote(xs[i]);
      }
    }
    ReadQuotedItems(xs, qs, PyTupleRepr(xs));
  }

  /** Corrected: every non-empty list's IN text reads back as the list. */
  lemma InListReadsBack(xs: seq<string>)
    requires |xs| >= 1 && CommaFree(xs)
    ensures ReadInList(InList(xs)) == Ok(xs)
  {
    if |xs| == 1 {
      assert InList(xs) == "(" + Join([Quote(xs[0])], ",") + ")";
      ReadQuotedItems(xs, [Quote(xs[0])], InList(xs));
    } else {
      TupleReadsBack(xs);
    }
  }

  /** The SELECT the query starts from. */
  const PhenotypeFirstSelect := "\n    SELECT\n        eid,phenotype,eventdate,field_id\n    FROM\n        phenotype_first\n    "

  /** The phenotype condition after WHERE: `= 'p'` for one name, `IN (...)` for several. */
  function PhenotypeCondition(ns: seq<string>): string
  {
    if |ns| == 1 then " phenotype = '" + ns[0] + "'" else " phenotype IN " + InList(ns)
  }

  /** The phenotype clause; nothing when every phenotype is wanted. */
  function PhenotypeClause(names: Option<seq<string>>): string
  {
    match names
    case None => ""
    case Some(ns) => " WHERE" + PhenotypeCondition(ns)
  }

  /** WHERE when there is no phenotype clause, AND after one. */
  function Connective(names: Option<seq<string>>): string
  {
    if names.None? then " WHERE" else " AND"
  }

  function FieldCondition(fs: seq<string>): string
  {
    " field_id IN " + InList(fs)
  }

  function FieldsClause(names: Option<seq<string>>, fields: Option<seq<string>>): string
  {
    match fields
    case None => ""
    case Some(fs) => Connective(names) + FieldCondition(fs)
  }

  function LimitClause(limit: Option<int>): string
  {
    match limit
    case None => ""
    case Some(n) => " LIMIT " + ShowInt(n)
  }

  /** The query text, clause by clause. */
  function PhenotypeFirstQuery(p: PhenotypesArg, fields: Option<seq<string>>, limit: Option<int>): string
  {
    var names := PhenotypeNames(p);
    PhenotypeFirstSelect + PhenotypeClause(names) + FieldsClause(names, fields) + LimitClause(limit)
  }

  lemma AppendAssoc(a: string, b: string, c: string)
    ensures a + b + c == a + (b + c)
  {
  }

  /** get_phenotype_first's text assembly: the query is extended step by step. */
  method PhenotypeFirstSql(p: PhenotypesArg, fields: Option<seq<string>>, limit: Option<int>) returns (sql: string)
    ensures sql == PhenotypeFirstQuery(p, fields, limit)
  {
    var names := p;
    if p.Lone? {
      names := Listed([p.name]);
    }
    assert names.Listed? <==> PhenotypeNames(p).Some?;
    assert names.Listed? ==> names.names == PhenotypeNames(p).value;
    sql := PhenotypeFirstSelect;
    if names.Listed? {
      if |names.names| == 1 {
        sql := sql + (" WHERE" + (" phenotype = '" + names.names[0] + "'"));
      } else {
        sql := sql + (" WHERE" + (" phenotype IN " + InList(names.names)));
      }
    }
    assert sql == PhenotypeFirstSelect + PhenotypeClause(PhenotypeNames(p));
    ghost var before := sql;
    if fields.Some? {
      var connective := if names.AllPhenotypes? then " WHERE" else " AND";
      sql := sql + connective;
      sql := sql + (" field_id IN " + InList(fields.value));
      AppendAssoc(before, connective, FieldCondition(fields.value));
    }
    assert sql == before + FieldsClause(PhenotypeNames(p), fields);
    if limit.Some? {
      sql := sql + (" LIMIT " + ShowInt(limit.value));
    }
  }

  /** A lone name gives the same query as the one-element list holding it, with `= 'name'`. */
  lemma LoneNameIsOneElementList(s: string, fields: Option<seq<string>>, limit: Option<int>)
    ensures PhenotypeFirstQuery(Lone(s), fields, limit) == PhenotypeFirstQuery(Listed([s]), fields, limit)
    ensures PhenotypeClause(PhenotypeNames(Lone(s))) == " WHERE" + (" phenotype = '" + s + "'")
  {
  }

  /**
   * The query holds one WHERE: the phenotype clause opens with it when a
   * phenotype is named, and the field clause opens with it exactly when none
   * is, and with AND otherwise. The query starts with the SELECT and ends with
   * the LIMIT clause.
   */
  lemma QueryConnectives(p: PhenotypesArg, fs: seq<string>, limit: Option<int>)
    ensures var names := PhenotypeNames(p);
      (PhenotypeClause(names) == "" <==> p.AllPhenotypes?) &&
      (!p.AllPhenotypes? ==> IsPrefix(" WHERE", PhenotypeClause(names))) &&
      (IsPrefix(" WHERE", FieldsClause(names, Some(fs))) <==> p.AllPhenotypes?) &&
      (IsPrefix(" AND", FieldsClause(names, Some(fs))) <==> !p.AllPhenotypes?)
    ensures var q := PhenotypeFirstQuery(p, Some(fs), limit);
      IsPrefix(PhenotypeFirstSelect, q) &&
      (limit.Some? ==> var tail := LimitClause(limit); |tail| <= |q| && q[|q| - |tail|..] == tail)
  {
    var names := PhenotypeNames(p);
    var c := Connective(names);
    var f := FieldsClause(names, Some(fs));
    assert f[..|c|] == c && f[1] == c[1];
    if p.AllPhenotypes? {
      assert !IsPrefix(" AND", f) by { assert f[..4][1] == 'W'; }
    } else if |f| >= 6 {
      assert !IsPrefix(" WHERE", f) by { assert f[..6][1] == 'A'; }
    }
    if !p.AllPhenotypes? {
      assert PhenotypeClause(names)[..6] == " WHERE";
    }
    var q := PhenotypeFirstQuery(p, Some(fs), limit);
    var body := PhenotypeClause(names) + f + LimitClause(limit);
    AppendAssoc(PhenotypeFirstSelect, PhenotypeClause(names), f);
    AppendAssoc(PhenotypeFirstSelect, PhenotypeClause(names) + f, LimitClause(limit));
    assert q == PhenotypeFirstSelect + body;
    var head := PhenotypeFirstSelect + PhenotypeClause(names) + f;
    assert q == head + LimitClause(limit);
    assert q[|head|..] == LimitClause(limit);
  }

  // ---------------------------------------------------------------------------
  // get_phenotype_first: the rows

  /** A row of the query result: the columns eid, phenotype, eventdate, field_id. */
  datatype Selected = Selected(eid: int, phenotype: string, eventdate: Option<Date>, fieldId: int)

  function Project(r: FirstEventRow): Selected
  {
    Selected(r.eid, r.phenotype, r.eventdate, r.fieldId)
  }

  /** The WHERE conditions: the phenotype is listed, and field_id equals a listed field compared as a number. */
  function Wanted(names: Option<seq<string>>, fields: Option<seq<string>>): FirstEventRow -> bool
  {
    (r: FirstEventRow) =>
      (names.None? || r.phenotype in names.value) &&
      (fields.None? || exists f :: f in fields.value && SqlNumber(f) == r.fieldId)
  }

  /**
   * The rows the query fetches. An empty list (`IN ()`) or a negative LIMIT is
   * a syntax error; LIMIT n keeps the first n matching rows.
   */
  function QueryRows(table: seq<FirstEventRow>, p: PhenotypesArg, fields: Option<seq<string>>, limit: Option<int>): Result<seq<Selected>>
  {
    var names := PhenotypeNames(p);
    if names == Some([]) || fields == Some([]) || (limit.Some? && limit.value < 0) then Err(SqlError)
    else
      var rows := Filter(table, Wanted(names, fields));
      var kept := if limit.Some? && limit.value < |rows| then rows[..limit.value] else rows;
      Ok(Map(kept, Project))
  }

  const SelectedColumns: set<string> := {"eid", "phenotype", "eventdate", "field_id"}

  function EventdateCell(): (Selected, string) -> Option<Date>
  {
    (x: Selected, c: string) => if c == "eventdate" then x.eventdate else None
  }

  /** The fetched rows after clean_dates_UKB with its defaults. */
  function CleanRows(table: seq<FirstEventRow>, p: PhenotypesArg, fields: Option<seq<string>>, limit: Option<int>): Result<seq<Selected>>
  {
    match QueryRows(table, p, fields, limit)
    case Err(e) => Err(e)
    case Ok(rows) =>
      match CleanDatesUkb(Frame(SelectedColumns, rows), EventdateCell(), "eventdate", UkbPlaceholders)
      case Err(e) => Err(e)
      case Ok(df) => Ok(df.rows)
  }

  /** The (eid, phenotype) pair first_only groups by. */
  function PairOf(): Selected -> (int, string)
  {
    (x: Selected) => (x.eid, x.phenotype)
  }

  /** idxmin within a group: the first row holding the group's earliest date, missing dates skipped. */
  function EarliestRow(rows: seq<Selected>, k: (int, string)): (r: Option<Selected>)
    ensures r.None? <==> forall x :: x in rows && PairOf()(x) == k ==> x.eventdate.None?
    ensures r.Some? ==> r.value in rows && PairOf()(r.value) == k && r.value.eventdate.Some?
    ensures r.Some? ==> forall x :: x in rows && PairOf()(x) == k && x.eventdate.Some? ==> DateLe(r.value.eventdate.value, x.eventdate.value)
  {
    if |rows| == 0 then None
    else
      var init := rows[..|rows| - 1];
      var last := rows[|rows| - 1];
      assert forall x :: x in rows <==> x in init || x == last;
      var best := EarliestRow(init, k);
      if PairOf()(last) != k || last.eventdate.None? then best
      else if best.None? then Some(last)
      else
        var b := best.value.eventdate.value;
        var d := last.eventdate.value;
        DateLeTotal(b, d);
        if DateLe(b, d) then best
        else
          assert forall x :: x in init && PairOf()(x) == k && x.eventdate.Some? ==> DateLe(d, x.eventdate.value) by {
            forall x | x in init && PairOf()(x) == k && x.eventdate.Some?
              ensures DateLe(d, x.eventdate.value)
            {
              DateLeTrans(d, b, x.eventdate.value);
            }
          }
          Some(last)
  }

  /**
   * first_only: one row per (eid, phenotype) pair. A pair with no known date
   * makes idxmin fail, and on an empty frame the uniqueness assertion compares
   * a missing maximum with 1 and fails.
   */
  function FirstPerPair(rows: seq<Selected>): Result<seq<Selected>>
  {
    var keys := DistinctKeys(rows, PairOf());
    if |keys| == 0 then Err(AssertionError)
    else if exists i :: 0 <= i < |keys| && EarliestRow(rows, keys[i]).None? then Err(ValueError)
    else Ok(seq(|keys|, i requires 0 <= i < |keys| => EarliestRow(rows, keys[i]).value))
  }

  /** get_phenotype_first. */
  function GetPhenotypeFirst(table: seq<FirstEventRow>, p: PhenotypesArg, fields: Option<seq<string>>, firstOnly: bool, limit: Option<int>): Result<seq<Selected>>
  {
    match CleanRows(table, p, fields, limit)
    case Err(e) => Err(e)
    case Ok(rows) => if firstOnly then FirstPerPair(rows) else Ok(rows)
  }

  /** The query fails with a syntax error exactly for an empty list or a negative limit. */
  lemma QueryErrors(table: seq<FirstEventRow>, p: PhenotypesArg, fields: Option<seq<string>>, limit: Option<int>)
    ensures QueryRows(table, p, fields, limit).Err? <==>
      p == Listed([]) || fields == Some([]) || (limit.Some? && limit.value < 0)
    ensures QueryRows(table, p, fields, limit).Ok? ==> CleanRows(table, p, fields, limit).Ok?
    ensures limit.Some? && limit.value >= 0 && QueryRows(table, p, fields, limit).Ok? ==>
      |QueryRows(table, p, fields, limit).value| <= limit.value
  {
    UkbPlaceholderDates();
  }

  /** The cleaned rows are fetched rows without a placeholder date. */
  lemma CleanRowsExact(table: seq<FirstEventRow>, p: PhenotypesArg, fields: Option<seq<string>>, limit: Option<int>, x: Selected)
    requires CleanRows(table, p, fields, limit).Ok?
    ensures x in CleanRows(table, p, fields, limit).value <==>
      x in QueryRows(table, p, fields, limit).value &&
      !(x.eventdate.Some? && x.eventdate.value in [Date(1900, 1, 1), Date(1901, 1, 1), Date(2037, 7, 7)])
  {
    UkbPlaceholderDates();
    var rows := QueryRows(table, p, fields, limit).value;
    CleanDatesUkbExact(Frame(SelectedColumns, rows), EventdateCell(), "eventdate", UkbPlaceholders, x);
  }

  /** Every fetched row is a table row that meets the WHERE conditions. */
  lemma QueryRowsMatch(table: seq<FirstEventRow>, p: PhenotypesArg, fields: Option<seq<string>>, limit: Option<int>, x: Selected)
    requires QueryRows(table, p, fields, limit).Ok?
    requires x in QueryRows(table, p, fields, limit).value
    ensures exists r :: r in table && Project(r) == x && Wanted(PhenotypeNames(p), fields)(r)
  {
    var names := PhenotypeNames(p);
    var wanted := Filter(table, Wanted(names, fields));
    var kept := if limit.Some? && limit.value < |wanted| then wanted[..limit.value] else wanted;
    MapMembership(kept, Project, x);
    var r :| r in kept && Project(r) == x;
    assert r in wanted;
    FilterMembership(table, Wanted(names, fields), r);
  }

  /** Every returned row is a cleaned row; first_only only picks among them. */
  lemma ResultFromCleanRows(table: seq<FirstEventRow>, p: PhenotypesArg, fields: Option<seq<string>>, firstOnly: bool, limit: Option<int>, x: Selected)
    requires GetPhenotypeFirst(table, p, fields, firstOnly, limit).Ok?
    requires x in GetPhenotypeFirst(table, p, fields, firstOnly, limit).value
    ensures CleanRows(table, p, fields, limit).Ok? && x in CleanRows(table, p, fields, limit).value
  {
    var rows := CleanRows(table, p, fields, limit).value;
    if firstOnly {
      var keys := DistinctKeys(rows, PairOf());
      var i :| 0 <= i < |keys| && FirstPerPair(rows).value[i] == x;
      assert EarliestRow(rows, keys[i]).value == x;
    }
  }

  /**
   * Every returned row is a phenotype_first row that meets the WHERE
   * conditions, and none carries a UK Biobank placeholder date.
   */
  lemma NoPlaceholderDates(table: seq<FirstEventRow>, p: PhenotypesArg, fields: Option<seq<string>>, firstOnly: bool, limit: Option<int>, x: Selected)
    requires GetPhenotypeFirst(table, p, fields, firstOnly, limit).Ok?
    requires x in GetPhenotypeFirst(table, p, fields, firstOnly, limit).value
    ensures x.eventdate.Some? ==> x.eventdate.value !in [Date(1900, 1, 1), Date(1901, 1, 1), Date(2037, 7, 7)]
    ensures exists r :: r in table && Project(r) == x && Wanted(PhenotypeNames(p), fields)(r)
  {
    ResultFromCleanRows(table, p, fields, firstOnly, limit, x);
    CleanRowsExact(table, p, fields, limit, x);
    QueryRowsMatch(table, p, fields, limit, x);
  }

  /**
   * With first_only there is exactly one row per (eid, phenotype) pair of the
   * cleaned rows, and it carries the pair's earliest date.
   */
  lemma FirstOnlyOnePerPair(rows: seq<Selected>)
    requires FirstPerPair(rows).Ok?
    ensures var out := FirstPerPair(rows).value;
      (forall i, j :: 0 <= i < j < |out| ==> PairOf()(out[i]) != PairOf()(out[j])) &&
      (forall y :: y in rows ==> exists x :: x in out && PairOf()(x) == PairOf()(y)) &&
      (forall x :: x in out ==> (x in rows && x.eventdate.Some? &&
        forall y :: y in rows && PairOf()(y) == PairOf()(x) && y.eventdate.Some? ==> DateLe(x.eventdate.value, y.eventdate.value)))
  {
    var keys := DistinctKeys(rows, PairOf());
    var out := FirstPerPair(rows).value;
    assert forall i :: 0 <= i < |out| ==> PairOf()(out[i]) == keys[i];
    forall y | y in rows ensures exists x :: x in out && PairOf()(x) == PairOf()(y) {
      assert PairOf()(y) in keys;
      var i :| 0 <= i < |keys| && keys[i] == PairOf()(y);
      assert out[i] in out;
    }
  }

  /** Selection errors: an empty result fails the first_only assertion. */
  lemma FirstOnlyEmptyFails(rows: seq<Selected>)
    ensures |rows| == 0 ==> FirstPerPair(rows) == Err(AssertionError)
    ensures FirstPerPair(rows).Err? ==> |rows| == 0 || exists y :: y in rows && forall x :: x in rows && PairOf()(x) == PairOf()(y) ==> x.eventdate.None?
  {
    var keys := DistinctKeys(rows, PairOf());
    if FirstPerPair(rows).Err? && |rows| > 0 {
      assert rows[0] in rows;
      assert PairOf()(rows[0]) in keys;
      var i :| 0 <= i < |keys| && EarliestRow(rows, keys[i]).None?;
      assert keys[i] in keys;
      var y :| y in rows && PairOf()(y) == keys[i];
    }
  }

  // ---------------------------------------------------------------------------
  // get_dod

  /** A row of get_dod's result. */
  datatype Dod = Dod(eid: int, dod: Option<Date>)

  function DodOf(r: CohortRow): Dod { Dod(r.eid, r.deathDate) }

  function Requested(eids: Option<seq<int>>): CohortRow -> bool
  {
    (r: CohortRow) => eids.None? || r.eid in eids.value
  }

  function Dead(): Dod -> bool { (d: Dod) => d.dod.Some? }

  predicate DistinctDodEids(ds: seq<Dod>)
  {
    forall i, j :: 0 <= i < j < |ds| ==> ds[i].eid != ds[j].eid
  }

  /**
   * get_dod: the death date (f40000) of the requested participants. An empty
   * eid list is a syntax error and duplicate eids fail the assertion; with
   * drop_alive, rows without a death date are dropped.
   */
  function GetDod(cohort: seq<CohortRow>, eids: Option<seq<int>>, dropAlive: bool): Result<seq<Dod>>
  {
    if eids == Some([]) then Err(SqlError)
    else
      var rows := Map(Filter(cohort, Requested(eids)), DodOf);
      if !DistinctDodEids(rows) then Err(AssertionError)
      else Ok(if dropAlive then Filter(rows, Dead()) else rows)
  }

  /**
   * With drop_alive every returned row has a death date, and every requested
   * participant with a death date is returned; without it every requested
   * participant is.
   */
  lemma GetDodRows(cohort: seq<CohortRow>, eids: Option<seq<int>>, dropAlive: bool, r: CohortRow)
    requires GetDod(cohort, eids, dropAlive).Ok?
    ensures dropAlive ==> forall d :: d in GetDod(cohort, eids, dropAlive).value ==> d.dod.Some?
    ensures r in cohort && Requested(eids)(r) && (r.deathDate.Some? || !dropAlive) ==>
      Dod(r.eid, r.deathDate) in GetDod(cohort, eids, dropAlive).value
    ensures DistinctDodEids(GetDod(cohort, eids, dropAlive).value)
  {
    var chosen := Filter(cohort, Requested(eids));
    var rows := Map(chosen, DodOf);
    FilterMembership(cohort, Requested(eids), r);
    MapMembership(chosen, DodOf, DodOf(r));
    if dropAlive {
      FilterMembershipAll(rows, Dead());
      FilterSubsequence(rows, Dead());
    }
  }

  /** A filtered list whose source had distinct eids keeps them distinct. */
  lemma {:induction false} FilterSubsequence(rows: seq<Dod>, p: Dod -> bool)
    requires DistinctDodEids(rows)
    ensures DistinctDodEids(Filter(rows, p))
  {
    if |rows| > 0 {
      var init, last := rows[..|rows| - 1], rows[|rows| - 1];
      FilterSubsequence(init, p);
      if p(last) {
        forall x | x in Filter(init, p) ensures x.eid != last.eid {
          FilterMembership(init, p, x);
          var i :| 0 <= i < |init| && init[i] == x;
          assert rows[i] == x;
        }
      }
    }
  }

  /** get_dod fails exactly on an empty eid list or when the cohort repeats a requested eid. */
  lemma GetDodErrors(cohort: seq<CohortRow>, eids: Option<seq<int>>, dropAlive: bool)
    ensures GetDod(cohort, eids, dropAlive).Err? <==>
      eids == Some([]) || !DistinctDodEids(Map(Filter(cohort, Requested(eids)), DodOf))
  {
  }

  // ---------------------------------------------------------------------------
  // get_min_censor_date

  /** The four censoring dictionaries get_min_censor_date reads; the values are 'DD-MM-YYYY' texts. */
  datatype Censoring = Censoring(
    primaryCare: seq<(int, string)>,
    hospital: seq<(string, string)>,
    cancer: seq<(string, string)>,
    death: seq<(string, string)>)

  /** The dictionaries of the configuration. */
  const Configured: Censoring :=
    Censoring(Config.PrimaryCareCensoring, Config.HospitalEhrCensoring, Config.CancerCensoring, Config.DeathCensoring)

  function Values<K>(m: seq<(K, string)>): (vs: seq<string>)
    ensures |vs| == |m| && forall i :: 0 <= i < |m| ==> vs[i] == m[i].1
  {
    seq(|m|, i requires 0 <= i < |m| => m[i].1)
  }

  /** pd.to_datetime(text, format="%d-%m-%Y"). */
  function ParseDmy(s: string): Option<Date>
  {
    match DateFields(s)
    case Some((d, m, y)) => if ValidDate(Date(y, m, d)) then Some(Date(y, m, d)) else None
    case None => None
  }

  /** to_datetime reads back the text strftime writes for a valid date. */
  lemma ParsePaddedDmy(d: Date)
    requires ValidDate(d)
    ensures ParseDmy(PaddedDmy(d)) == Some(d)
  {
    ShowValue(d.year);
    Pad2Value(d.month);
    Pad2Value(d.day);
    DateFieldsParts(Pad2(d.day), Pad2(d.month), Show(d.year));
  }

  predicate NoneEmpty(c: Censoring)
  {
    |c.primaryCare| > 0 && |c.hospital| > 0 && |c.cancer| > 0 && |c.death| > 0
  }

  /** The minimum of the four minima, each compared as text. */
  function MinCensorText(c: Censoring): string
    requires NoneEmpty(c)
  {
    MinText([MinText(Values(c.primaryCare)), MinText(Values(c.hospital)),
             MinText(Values(c.cancer)), MinText(Values(c.death))])
  }

  /** As written: the text minimum, parsed; `min` of an empty dictionary and a bad text raise ValueError. */
  function MinCensorDateAsWritten(c: Censoring): Result<Date>
  {
    if !NoneEmpty(c) then Err(ValueError)
    else
      match ParseDmy(MinCensorText(c))
      case Some(d) => Ok(d)
      case None => Err(ValueError)
  }

  function ParseAllDmy(texts: seq<string>): (r: Option<seq<Date>>)
    ensures r.Some? ==> |r.value| == |texts| && forall i :: 0 <= i < |texts| ==> ParseDmy(texts[i]) == Some(r.value[i])
    ensures r.None? ==> exists i :: 0 <= i < |texts| && ParseDmy(texts[i]).None?
  {
    if |texts| == 0 then Some([])
    else
      match (ParseAllDmy(texts[..|texts| - 1]), ParseDmy(texts[|texts| - 1]))
      case (Some(ds), Some(d)) => Some(ds + [d])
      case (None, _) => None
      case (_, None) => None
  }

  /** Every text parses as the date at the same place. */
  lemma {:induction false} ParseAllDmyAs(texts: seq<string>, ds: seq<Date>)
    requires |texts| == |ds| && forall i :: 0 <= i < |texts| ==> ParseDmy(texts[i]) == Some(ds[i])
    ensures ParseAllDmy(texts) == Some(ds)
  {
    if |texts| > 0 {
      var n := |texts|;
      ParseAllDmyAs(texts[..n - 1], ds[..n - 1]);
      assert ds[..n - 1] + [ds[n - 1]] == ds;
    }
  }

  /** The earliest date of one dictionary, compared as dates. */
  function EarliestCensoring<K>(m: seq<(K, string)>): (r: Option<Date>)
    ensures r.Some? <==> |m| > 0 && forall i :: 0 <= i < |m| ==> ParseDmy(m[i].1).Some?
    ensures r.Some? ==> forall i :: 0 <= i < |m| ==> DateLe(r.value, ParseDmy(m[i].1).value)
    ensures r.Some? ==> exists i :: 0 <= i < |m| && ParseDmy(m[i].1) == r
  {
    match ParseAllDmy(Values(m))
    case Some(ds) =>
      if |ds| > 0 then
        var e := EarliestDate(ds);
        assert forall i :: 0 <= i < |m| ==> ds[i] in ds;
        Some(e)
      else None
    case None => None
  }

  /** Corrected get_min_censor_date: the earliest of the four dictionaries' earliest dates. */
  function MinCensorDate(c: Censoring): Result<Date>
  {
    match (EarliestCensoring(c.primaryCare), EarliestCensoring(c.hospital),
           EarliestCensoring(c.cancer), EarliestCensoring(c.death))
    case (Some(a), Some(b), Some(x), Some(d)) => Ok(EarliestDate([a, b, x, d]))
    case _ => Err(ValueError)
  }

  /** Every date text of the four dictionaries. */
  function AllTexts(c: Censoring): seq<string>
  {
    Values(c.primaryCare) + Values(c.hospital) + Values(c.cancer) + Values(c.death)
  }

  /** A dictionary has an earliest date exactly when it has a text and every text is a date. */
  lemma EarliestCensoringDefined<K>(m: seq<(K, string)>)
    ensures EarliestCensoring(m).Some? <==> |m| > 0 && forall t :: t in Values(m) ==> ParseDmy(t).Some?
  {
    var vs := Values(m);
    if |m| > 0 && forall t :: t in vs ==> ParseDmy(t).Some? {
      assert forall i :: 0 <= i < |m| ==> vs[i] in vs;
    }
  }

  /** The earliest date of a dictionary is on or before the date of each of its texts. */
  lemma EarliestCensoringBelow<K>(m: seq<(K, string)>, t: string)
    requires EarliestCensoring(m).Some? && t in Values(m)
    ensures ParseDmy(t).Some? && DateLe(EarliestCensoring(m).value, ParseDmy(t).value)
  {
    var i :| 0 <= i < |m| && Values(m)[i] == t;
  }

  /** The earliest date of a dictionary is the date of one of its texts. */
  lemma EarliestCensoringAmong<K>(m: seq<(K, string)>)
    requires EarliestCensoring(m).Some?
    ensures exists t :: t in Values(m) && ParseDmy(t) == EarliestCensoring(m)
  {
    var i :| 0 <= i < |m| && ParseDmy(m[i].1) == EarliestCensoring(m);
    assert Values(m)[i] in Values(m);
  }

  /** The corrected date is on or before the date of every text of the four dictionaries. */
  lemma MinCensorDateBelow(c: Censoring, t: string)
    requires MinCensorDate(c).Ok? && t in AllTexts(c)
    ensures ParseDmy(t).Some? && DateLe(MinCensorDate(c).value, ParseDmy(t).value)
  {
    var ep, eh, ex, ed :=
      EarliestCensoring(c.primaryCare).value, EarliestCensoring(c.hospital).value,
      EarliestCensoring(c.cancer).value, EarliestCensoring(c.death).value;
    var es := [ep, eh, ex, ed];
    var m := MinCensorDate(c).value;
    assert ep in es && eh in es && ex in es && ed in es;
    if t in Values(c.primaryCare) {
      EarliestCensoringBelow(c.primaryCare, t);
      DateLeTrans(m, ep, ParseDmy(t).value);
    } else if t in Values(c.hospital) {
      EarliestCensoringBelow(c.hospital, t);
      DateLeTrans(m, eh, ParseDmy(t).value);
    } else if t in Values(c.cancer) {
      EarliestCensoringBelow(c.cancer, t);
      DateLeTrans(m, ex, ParseDmy(t).value);
    } else {
      EarliestCensoringBelow(c.death, t);
      DateLeTrans(m, ed, ParseDmy(t).value);
    }
  }

  /** Every text of a list is a date. */
  predicate AllDmy(ts: seq<string>) {
    forall t :: t in ts ==> ParseDmy(t).Some?
  }

  lemma AllDmyConcat(a: seq<string>, b: seq<string>)
    ensures AllDmy(a + b) <==> AllDmy(a) && AllDmy(b)
  {
    assert forall t :: t in a + b <==> t in a || t in b;
  }

  /** The corrected date is defined exactly when every dictionary has a date and every text is one. */
  lemma MinCensorDateDefined(c: Censoring)
    ensures MinCensorDate(c).Ok? <==> NoneEmpty(c) && AllDmy(AllTexts(c))
  {
    var p, h, x, d := Values(c.primaryCare), Values(c.hospital), Values(c.cancer), Values(c.death);
    EarliestCensoringDefined(c.primaryCare);
    EarliestCensoringDefined(c.hospital);
    EarliestCensoringDefined(c.cancer);
    EarliestCensoringDefined(c.death);
    AllDmyConcat(p, h);
    AllDmyConcat(p + h, x);
    AllDmyConcat(p + h + x, d);
  }

  lemma EarliestOfFour(a: Date, b: Date, x: Date, d: Date)
    ensures var m := EarliestDate([a, b, x, d]); m == a || m == b || m == x || m == d
  {
    var m := EarliestDate([a, b, x, d]);
    assert m in [a, b, x, d];
  }

  /** The corrected date, when defined, is the date of one of the texts. */
  lemma MinCensorDateAmong(c: Censoring)
    requires MinCensorDate(c).Ok?
    ensures exists t :: t in AllTexts(c) && ParseDmy(t) == Some(MinCensorDate(c).value)
  {
    var p, h, x, d := Values(c.primaryCare), Values(c.hospital), Values(c.cancer), Values(c.death);
    assert AllTexts(c) == p + h + x + d;
    var m := MinCensorDate(c).value;
    EarliestOfFour(EarliestCensoring(c.primaryCare).value, EarliestCensoring(c.hospital).value,
                   EarliestCensoring(c.cancer).value, EarliestCensoring(c.death).value);
    var t: string;
    if m == EarliestCensoring(c.primaryCare).value {
      EarliestCensoringAmong(c.primaryCare);
      t :| t in p && ParseDmy(t) == Some(m);
    } else if m == EarliestCensoring(c.hospital).value {
      EarliestCensoringAmong(c.hospital);
      t :| t in h && ParseDmy(t) == Some(m);
    } else if m == EarliestCensoring(c.cancer).value {
      EarliestCensoringAmong(c.cancer);
      t :| t in x && ParseDmy(t) == Some(m);
    } else {
      EarliestCensoringAmong(c.death);
      t :| t in d && ParseDmy(t) == Some(m);
    }
    assert t in AllTexts(c);
  }

  /**
   * The corrected date is defined exactly when every dictionary has a
   * date and every text is one; it is then one of the dates, on or before
   * all of them.
   */
  lemma MinCensorDateEarliest(c: Censoring)
    ensures MinCensorDate(c).Ok? <==> NoneEmpty(c) && forall t :: t in AllTexts(c) ==> ParseDmy(t).Some?
    ensures MinCensorDate(c).Ok? ==>
      (forall t :: t in AllTexts(c) ==> DateLe(MinCensorDate(c).value, ParseDmy(t).value)) &&
      (exists t :: t in AllTexts(c) && ParseDmy(t) == Some(MinCensorDate(c).value))
  {
    MinCensorDateDefined(c);
    if MinCensorDate(c).Ok? {
      forall t | t in AllTexts(c) ensures DateLe(MinCensorDate(c).value, ParseDmy(t).value) {
        MinCensorDateBelow(c, t);
      }
      MinCensorDateAmong(c);
    }
  }

  /** The text minimum of a list is the one text whose first character is smaller than every other's. */
  lemma MinTextByFirstChar(xs: seq<string>, w: string)
    requires |xs| > 0 && w in xs && |w| > 0
    requires forall x :: x in xs ==> x == w || (|x| > 0 && w[0] < x[0])
    ensures MinText(xs) == w
  {
    var m := MinText(xs);
    if m != w {
      TextLeFirstChar(w, m);
    }
  }

  /** A 'DD-MM-YYYY' text starts with the tens digit of its day. */
  lemma DmyFirstDigit(d: Date)
    requires ValidDate(d)
    ensures |PaddedDmy(d)| > 0 && PaddedDmy(d)[0] == DigitChar(d.day / 10)
  {
    if d.day >= 10 {
      assert Show(d.day) == Show(d.day / 10) + [DigitChar(d.day % 10)];
    }
  }

  /** The texts of a dictionary whose dates all fall on the 30th or 31st start with '3'. */
  lemma EndOfMonthTexts<K>(m: seq<(K, string)>, ds: seq<Date>)
    requires |m| == |ds| && forall i :: 0 <= i < |ds| ==> ValidDate(ds[i]) && ds[i].day >= 30 && m[i].1 == PaddedDmy(ds[i])
    ensures forall x :: x in Values(m) ==> |x| > 0 && x[0] == '3'
  {
    forall i | 0 <= i < |ds| ensures |m[i].1| > 0 && m[i].1[0] == '3' {
      DmyFirstDigit(ds[i]);
    }
  }

  lemma MinTextStartsWithThree(xs: seq<string>)
    requires |xs| > 0
    requires forall x :: x in xs ==> |x| > 0 && x[0] == '3'
    ensures |MinText(xs)| > 0 && MinText(xs)[0] == '3'
  {
  }

  predicate StartsWith(s: string, ch: char)
  {
    |s| > 0 && s[0] == ch
  }

  /** The hospital minimum, as text, is 28-02-2016: the other two texts start with '3'. */
  lemma HospitalMinText()
    ensures MinText(Values(Config.HospitalEhrCensoring)) == PaddedDmy(Date(2016, 2, 28))
  {
    var w := PaddedDmy(Date(2016, 2, 28));
    DmyFirstDigit(Date(2016, 2, 28));
    var he := Values(Config.HospitalEhrCensoring);
    EndOfMonthTexts(Config.HospitalEhrCensoring[..2], [Date(2020, 6, 30), Date(2016, 8, 31)]);
    assert he == Values(Config.HospitalEhrCensoring[..2]) + [w];
    MinTextByFirstChar(he, w);
  }

  /** The other three minima, as text, start with '3'. */
  lemma PrimaryCareMinText()
    ensures StartsWith(MinText(Values(Config.PrimaryCareCensoring)), '3')
  {
    EndOfMonthTexts(Config.PrimaryCareCensoring, [Date(2017, 5, 31), Date(2017, 3, 31), Date(2016, 5, 31), Date(2017, 8, 31)]);
    MinTextStartsWithThree(Values(Config.PrimaryCareCensoring));
  }

  lemma CancerMinText()
    ensures StartsWith(MinText(Values(Config.CancerCensoring)), '3')
  {
    EndOfMonthTexts(Config.CancerCensoring, [Date(2016, 3, 31), Date(2015, 10, 31), Date(2016, 12, 31)]);
    MinTextStartsWithThree(Values(Config.CancerCensoring));
  }

  lemma DeathMinText()
    ensures StartsWith(MinText(Values(Config.DeathCensoring)), '3')
  {
    EndOfMonthTexts(Config.DeathCensoring, [Date(2020, 8, 31), Date(2020, 8, 31), Date(2020, 8, 31)]);
    MinTextStartsWithThree(Values(Config.DeathCensoring));
  }

  /** The text minimum of the four minima is the hospital minimum when it starts with '2' and the others with '3'. */
  lemma MinCensorTextOf(c: Censoring, d: Date)
    requires ValidDate(d) && d.day / 10 == 2
    requires NoneEmpty(c) && MinText(Values(c.hospital)) == PaddedDmy(d)
    requires StartsWith(MinText(Values(c.primaryCare)), '3') && StartsWith(MinText(Values(c.cancer)), '3')
    requires StartsWith(MinText(Values(c.death)), '3')
    ensures MinCensorText(c) == PaddedDmy(d)
  {
    var w := PaddedDmy(d);
    DmyFirstDigit(d);
    var outer := [MinText(Values(c.primaryCare)), MinText(Values(c.hospital)),
                  MinText(Values(c.cancer)), MinText(Values(c.death))];
    MinTextByFirstChar(outer, w);
  }

  /** As written, the censoring minimum is the text of 28 February 2016: the only date text that starts with '2'. */
  lemma MinCensorTextIs()
    ensures NoneEmpty(Configured) && MinCensorText(Configured) == PaddedDmy(Date(2016, 2, 28))
  {
    var c := Configured;
    assert c.primaryCare == Config.PrimaryCareCensoring && c.hospital == Config.HospitalEhrCensoring;
    assert c.cancer == Config.CancerCensoring && c.death == Config.DeathCensoring;
    HospitalMinText();
    PrimaryCareMinText();
    CancerMinText();
    DeathMinText();
    MinCensorTextOf(c, Date(2016, 2, 28));
  }

  lemma CensorTextSpelled()
    ensures PaddedDmy(Date(2016, 2, 28)) == "28-02-2016"
  {
  }

  lemma MinCensorTextSpelled()
    ensures NoneEmpty(Configured) && MinCensorText(Configured) == "28-02-2016"
  {
    MinCensorTextIs();
    CensorTextSpelled();
  }

  /** As written, get_min_censor_date returns 28 February 2016. */
  lemma MinCensorDateAsWrittenIs()
    ensures MinCensorDateAsWritten(Configured) == Ok(Date(2016, 2, 28))
  {
    MinCensorTextIs();
    ParsePaddedDmy(Date(2016, 2, 28));
  }

  lemma EarliestIs(ds: seq<Date>, w: Date)
    requires w in ds && forall d :: d in ds ==> DateLe(w, d)
    ensures EarliestDate(ds) == w
  {
    DateLeAntisymmetric(EarliestDate(ds), w);
  }

  /** A dictionary whose texts are the padded texts of ds has ds as its earliest-date candidates. */
  lemma EarliestCensoringOf<K>(m: seq<(K, string)>, ds: seq<Date>, w: Date)
    requires |m| == |ds| && forall i :: 0 <= i < |ds| ==> ValidDate(ds[i]) && m[i].1 == PaddedDmy(ds[i])
    requires w in ds && forall d :: d in ds ==> DateLe(w, d)
    ensures EarliestCensoring(m) == Some(w)
  {
    forall i | 0 <= i < |ds| ensures ParseDmy(Values(m)[i]) == Some(ds[i]) {
      ParsePaddedDmy(ds[i]);
    }
    ParseAllDmyAs(Values(m), ds);
    EarliestIs(ds, w);
  }

  lemma PrimaryCareEarliest()
    ensures EarliestCensoring(Config.PrimaryCareCensoring) == Some(Date(2016, 5, 31))
  {
    EarliestCensoringOf(Config.PrimaryCareCensoring,
      [Date(2017, 5, 31), Date(2017, 3, 31), Date(2016, 5, 31), Date(2017, 8, 31)], Date(2016, 5, 31));
  }

  lemma HospitalEarliest()
    ensures EarliestCensoring(Config.HospitalEhrCensoring) == Some(Date(2016, 2, 28))
  {
    EarliestCensoringOf(Config.HospitalEhrCensoring, [Date(2020, 6, 30), Date(2016, 8, 31), Date(2016, 2, 28)], Date(2016, 2, 28));
  }

  lemma CancerEarliest()
    ensures EarliestCensoring(Config.CancerCensoring) == Some(Date(2015, 10, 31))
  {
    EarliestCensoringOf(Config.CancerCensoring, [Date(2016, 3, 31), Date(2015, 10, 31), Date(2016, 12, 31)], Date(2015, 10, 31));
  }

  lemma DeathEarliest()
    ensures EarliestCensoring(Config.DeathCensoring) == Some(Date(2020, 8, 31))
  {
    EarliestCensoringOf(Config.DeathCensoring, [Date(2020, 8, 31), Date(2020, 8, 31), Date(2020, 8, 31)], Date(2020, 8, 31));
  }

  /** The corrected date of dictionaries whose earliest dates are known. */
  lemma MinCensorDateOf(c: Censoring, a: Date, b: Date, x: Date, d: Date)
    requires EarliestCensoring(c.primaryCare) == Some(a) && EarliestCensoring(c.hospital) == Some(b)
    requires EarliestCensoring(c.cancer) == Some(x) && EarliestCensoring(c.death) == Some(d)
    ensures MinCensorDate(c) == Ok(EarliestDate([a, b, x, d]))
  {
  }

  /** The earliest censoring date is 31 October 2015, the cancer registry's date for Scotland. */
  lemma MinCensorDateIs()
    ensures MinCensorDate(Configured) == Ok(Date(2015, 10, 31))
  {
    var c := Configured;
    assert c.primaryCare == Config.PrimaryCareCensoring && c.hospital == Config.HospitalEhrCensoring;
    assert c.cancer == Config.CancerCensoring && c.death == Config.DeathCensoring;
    PrimaryCareEarliest();
    HospitalEarliest();
    CancerEarliest();
    DeathEarliest();
    MinCensorDateOf(c, Date(2016, 5, 31), Date(2016, 2, 28), Date(2015, 10, 31), Date(2020, 8, 31));
    EarliestIs([Date(2016, 5, 31), Date(2016, 2, 28), Date(2015, 10, 31), Date(2020, 8, 31)], Date(2015, 10, 31));
  }

  /** Comparing the texts instead of the dates returns a date four months too late. */
  lemma MinCensorDateDiffers()
    ensures MinCensorDate(Configured).Ok? && MinCensorDateAsWritten(Configured).Ok?
    ensures DateLt(MinCensorDate(Configured).value, MinCensorDateAsWritten(Configured).value)
  {
    MinCensorDateIs();
    MinCensorDateAsWrittenIs();
  }
}
