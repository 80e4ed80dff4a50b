/**
 * The baseline loader (scripts/bin/ops/load_baseline_to_mysql.py): reads the
 * wide UK Biobank baseline CSV and inserts one (eid, field, instance, n, value)
 * tuple per non-empty cell into the `baseline` table, in batches of 1000.
 *
 * A row whose first cell is 'eid' is a header: it replaces the column names
 * and emits nothing. The CSV rows are a parameter; each executemany call is
 * one element of the returned batch list. An exception ends the script before
 * the commit, so an error result stands for a load that inserts nothing.
 */
module BaselineLoader {
  import opened Common
  import opened Helpers

  /** A row of the `baseline` table. */
  datatype BaselineTuple = BaselineTuple(eid: int, field: int, instance: int, n: int, value: string)

  /** The size at which the buffer is flushed. */
  const BatchSize := 1000

  /**
   * The tuple cell j of a data row emits: nothing for an empty cell; otherwise
   * the column name at the same position (IndexError when the header is
   * shorter), split by infer_field_info, with int(row[0]) as the eid.
   */
  function CellTuple(columns: seq<string>, row: seq<string>, j: nat): (r: Result<Option<BaselineTuple>>)
    requires 1 <= j < |row|
    ensures r == Ok(None) <==> row[j] == ""
    ensures r.Ok? && r.value.Some? ==> r.value.value.value == row[j] && ParseInt(row[0]) == Ok(r.value.value.eid)
    ensures r.Ok? && r.value.Some? ==> (j < |columns| &&
      InferFieldInfo(columns[j]) == Ok([r.value.value.field, r.value.value.instance, r.value.value.n]))
  {
    if row[j] == "" then Ok(None)
    else if j >= |columns| then Err(IndexError)
    else
      match InferFieldInfo(columns[j])
      case Err(e) => Err(e)
      case Ok(info) =>
        match ParseInt(row[0])
        case Err(e) => Err(e)
        case Ok(eid) => Ok(Some(BaselineTuple(eid, info[0], info[1], info[2], row[j])))
  }

  predicate Filled(cell: string) { cell != "" }

  /** The tuples cells 1 .. k-1 of a data row emit, in column order. */
  function RowTuples(columns: seq<string>, row: seq<string>, k: nat): (r: Result<seq<BaselineTuple>>)
    requires 1 <= k <= |row|
    ensures r.Ok? ==> |r.value| == Count(row[1..k], Filled)
  {
    if k == 1 then Ok([])
    else
      assert row[1..k][..k - 2] == row[1..k - 1];
      match RowTuples(columns, row, k - 1)
      case Err(e) => Err(e)
      case Ok(ts) =>
        match CellTuple(columns, row, k - 1)
        case Err(e) => Err(e)
        case Ok(None) => Ok(ts)
        case Ok(Some(t)) => Ok(ts + [t])
  }

  /** The column names in force and the tuples emitted after reading `rows`. */
  datatype Reading = Reading(columns: seq<string>, emitted: seq<BaselineTuple>)

  /**
   * The tuples the script emits for a file, in reading order. An empty CSV
   * line has no row[0] and raises IndexError.
   */
  function Emitted(rows: seq<seq<string>>): Result<Reading>
  {
    if |rows| == 0 then Ok(Reading([], []))
    else
      match Emitted(rows[..|rows| - 1])
      case Err(e) => Err(e)
      case Ok(st) =>
        var row := rows[|rows| - 1];
        if |row| == 0 then Err(IndexError)
        else if row[0] == "eid" then Ok(st.(columns := row))
        else
          match RowTuples(st.columns, row, |row|)
          case Err(e) => Err(e)
          case Ok(ts) => Ok(st.(emitted := st.emitted + ts))
  }

  /** A failing prefix of a row makes the whole row fail. */
  lemma {:induction false} RowTuplesErrPersists(columns: seq<string>, row: seq<string>, k: nat, m: nat)
    requires 1 <= k <= m <= |row| && RowTuples(columns, row, k).Err?
    ensures RowTuples(columns, row, m).Err?
  {
    if m > k {
      RowTuplesErrPersists(columns, row, k, m - 1);
    }
  }

  /** A failing prefix of the file makes the whole load fail. */
  lemma {:induction false} EmittedErrPersists(rows: seq<seq<string>>, x: nat)
    requires x <= |rows| && Emitted(rows[..x]).Err?
    ensures Emitted(rows).Err?
  {
    if x < |rows| {
      assert rows[..x] == rows[..|rows| - 1][..x];
      EmittedErrPersists(rows[..|rows| - 1], x);
      assert rows[..|rows|] == rows;
    } else {
      assert rows[..x] == rows;
    }
  }

  /** Every full batch has BatchSize tuples and the final one fewer. */
  predicate WellBatched(batches: seq<seq<BaselineTuple>>)
  {
    |batches| > 0 &&
    (forall i :: 0 <= i < |batches| - 1 ==> |batches[i]| == BatchSize) &&
    |batches[|batches| - 1]| < BatchSize
  }

  predicate FullBatches(batches: seq<seq<BaselineTuple>>)
  {
    forall i :: 0 <= i < |batches| ==> |batches[i]| == BatchSize
  }

  /** Flushing the buffer keeps the tuples and their order. */
  lemma FlushKeepsOrder(batches: seq<seq<BaselineTuple>>, buffer: seq<BaselineTuple>)
    ensures Flatten(batches + [buffer]) == Flatten(batches) + buffer
  {
    assert (batches + [buffer])[..|batches|] == batches;
  }

  lemma AppendLast<T>(a: seq<T>, b: seq<T>, c: seq<T>, d: seq<T>, t: T)
    requires a + b == c + d
    ensures a + (b + [t]) == c + (d + [t])
  {
    assert a + (b + [t]) == (a + b) + [t];
  }

  /**
   * The inner loop over the cells of one data row: each emitted tuple is
   * appended to the buffer, and a buffer that reaches 1000 tuples is flushed
   * and reset to empty.
   */
  method EmitRow(columns: seq<string>, row: seq<string>, batches0: seq<seq<BaselineTuple>>, buffer0: seq<BaselineTuple>)
    returns (r: Result<(seq<seq<BaselineTuple>>, seq<BaselineTuple>)>)
    requires |row| > 0 && |buffer0| < BatchSize && FullBatches(batches0)
    ensures r.Ok? <==> RowTuples(columns, row, |row|).Ok?
    ensures r.Ok? ==> Flatten(r.value.0) + r.value.1 == Flatten(batches0) + buffer0 + RowTuples(columns, row, |row|).value
    ensures r.Ok? ==> |r.value.1| < BatchSize && FullBatches(r.value.0)
  {
    var batches, buffer := batches0, buffer0;
    for y := 1 to |row|
      invariant RowTuples(columns, row, y).Ok?
      invariant Flatten(batches) + buffer == Flatten(batches0) + buffer0 + RowTuples(columns, row, y).value
      invariant |buffer| < BatchSize && FullBatches(batches)
    {
      var cell := CellTuple(columns, row, y);
      if cell.Err? {
        RowTuplesErrPersists(columns, row, y + 1, |row|);
        return Err(cell.error);
      }
      ghost var done := RowTuples(columns, row, y).value;
      assert RowTuples(columns, row, y + 1).value == done + (if cell.value.Some? then [cell.value.value] else []);
      if cell.value.Some? {
        AppendLast(Flatten(batches), buffer, Flatten(batches0) + buffer0, done, cell.value.value);
        buffer := buffer + [cell.value.value];
        if |buffer| == BatchSize {
          FlushKeepsOrder(batches, buffer);
          batches := batches + [buffer];
          buffer := [];
        }
      }
    }
    r := Ok((batches, buffer));
  }

  /**
   * The load loop: the batches handed to executemany concatenate to every
   * emitted tuple in reading order; each holds 1000 tuples except the final
   * flush of the remainder, which may be empty.
   */
  method LoadBaseline(rows: seq<seq<string>>) returns (r: Result<seq<seq<BaselineTuple>>>)
    ensures r.Ok? <==> Emitted(rows).Ok?
    ensures r.Ok? ==> Flatten(r.value) == Emitted(rows).value.emitted && WellBatched(r.value)
  {
    var columns: seq<string> := [];
    var buffer: seq<BaselineTuple> := [];
    var batches: seq<seq<BaselineTuple>> := [];
    assert rows[..0] == [] && Flatten(batches) == [];
    assert Emitted(rows[..0]) == Ok(Reading([], []));
    assert Flatten(batches) + buffer == [];
    assert Emitted(rows[..0]) == Ok(Reading(columns, Flatten(batches) + buffer));
    for x := 0 to |rows|
      invariant Emitted(rows[..x]) == Ok(Reading(columns, Flatten(batches) + buffer))
      invariant |buffer| < BatchSize && FullBatches(batches)
    {
      assert rows[..x + 1][..x] == rows[..x];
      var row := rows[x];
      if |row| == 0 {
        EmittedErrPersists(rows, x + 1);
        return Err(IndexError);
      }
      if row[0] == "eid" {
        columns := row;
        continue;
      }
      var step := EmitRow(columns, row, batches, buffer);
      if step.Err? {
        EmittedErrPersists(rows, x + 1);
        return Err(step.error);
      }
      batches, buffer := step.value.0, step.value.1;
    }
    assert rows[..|rows|] == rows;
    FlushKeepsOrder(batches, buffer);
    batches := batches + [buffer];
    r := Ok(batches);
  }

  /** A header row replaces the column names and emits nothing. */
  lemma HeaderEmitsNothing(rows: seq<seq<string>>, header: seq<string>)
    requires |header| > 0 && header[0] == "eid" && Emitted(rows).Ok?
    ensures Emitted(rows + [header]) == Ok(Emitted(rows).value.(columns := header))
  {
    assert (rows + [header])[..|rows|] == rows;
  }

  /** A data row emits exactly one tuple per non-empty cell after the eid. */
  lemma DataRowCount(rows: seq<seq<string>>, row: seq<string>)
    requires |row| > 0 && row[0] != "eid"
    requires Emitted(rows).Ok? && Emitted(rows + [row]).Ok?
    ensures |Emitted(rows + [row]).value.emitted| == |Emitted(rows).value.emitted| + Count(row[1..], Filled)
  {
    assert (rows + [row])[..|rows|] == rows;
    assert row[1..|row|] == row[1..];
  }

  /** Each tuple of a data row comes from a non-empty cell, carries its value, and int(row[0]) as the eid. */
  lemma {:induction false} RowTuplesFromCells(columns: seq<string>, row: seq<string>, k: nat, t: BaselineTuple)
    requires 1 <= k <= |row| && RowTuples(columns, row, k).Ok? && t in RowTuples(columns, row, k).value
    ensures ParseInt(row[0]) == Ok(t.eid)
    ensures exists j :: (1 <= j < k && j < |columns| && row[j] == t.value && row[j] != "" &&
      InferFieldInfo(columns[j]) == Ok([t.field, t.instance, t.n]))
  {
    if k > 1 {
      var ts := RowTuples(columns, row, k - 1).value;
      if t in ts {
        RowTuplesFromCells(columns, row, k - 1, t);
      } else {
        assert CellTuple(columns, row, k - 1) == Ok(Some(t));
      }
    }
  }
}
