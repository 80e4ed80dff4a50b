/**
 * The wide-to-long transposer (scripts/bin/ops/transpose.py): the first CSV
 * line holds the column names and is replaced by a fixed header; every later
 * line gives one output line [eid, field, instance, n, value] per non-empty
 * cell, in column order.
 *
 * The input lines are a parameter and the written lines are returned. The
 * output file is closed when an exception ends the loop, so the lines
 * written before the failure stay written: the result carries both.
 */
module Transpose {
  import opened Common

  /** The header written in place of the first line. */
  const Header: seq<string> := ["eid", "field", "i", "n", "value"]

  /** The lines written so far and the exception that ended the loop, if any. */
  datatype Output = Output(lines: seq<seq<string>>, failure: Option<Error>)

  /**
   * Field id and instance of a column name: the text before the first '.',
   * split on '-' into exactly two parts; otherwise (the unpacking raises
   * ValueError) the text before the first '-' and instance 0.
   */
  function FieldAndInstance(name: string): (string, string)
  {
    var idInst := Split(Split(name, '.')[0], '-');
    if |idInst| == 2 then (idInst[0], idInst[1]) else (Split(name, '-')[0], "0")
  }

  /**
   * The line cell j of a data line writes: nothing for an empty cell; the
   * column name at the same position, IndexError when the header is shorter;
   * n is always the text after the first '.', IndexError when there is none.
   */
  function CellLine(cols: seq<string>, row: seq<string>, j: nat): (r: Result<Option<seq<string>>>)
    requires 1 <= j < |row|
    ensures r == Ok(None) <==> row[j] == ""
    ensures r.Ok? && r.value.Some? ==> |r.value.value| == 5 && r.value.value[0] == row[0] && r.value.value[4] == row[j]
  {
    if row[j] == "" then Ok(None)
    else if j >= |cols| then Err(IndexError)
    else
      var name := cols[j];
      var (field, instance) := FieldAndInstance(name);
      var dotted := Split(name, '.');
      if |dotted| < 2 then Err(IndexError)
      else Ok(Some([row[0], field, instance, dotted[1], row[j]]))
  }

  predicate Filled(cell: string) { cell != "" }

  /** The lines cells 1 .. k-1 of a data line write, stopping at the first failure. */
  function RowLines(cols: seq<string>, row: seq<string>, k: nat): (o: Output)
    requires 1 <= k <= |row|
    ensures o.failure.None? ==> |o.lines| == Count(row[1..k], Filled)
  {
    if k == 1 then Output([], None)
    else
      assert row[1..k][..k - 2] == row[1..k - 1];
      var o := RowLines(cols, row, k - 1);
      if o.failure.Some? then o
      else
        match CellLine(cols, row, k - 1)
        case Err(e) => Output(o.lines, Some(e))
        case Ok(None) => o
        case Ok(Some(l)) => Output(o.lines + [l], None)
  }

  /**
   * Everything the script writes for an input file: the header for the first
   * line, then the lines of each data line; `eid = row[0]` raises IndexError
   * on an empty line.
   */
  function Transposed(rows: seq<seq<string>>): (o: Output)
    ensures |rows| > 0 ==> |o.lines| > 0 && o.lines[0] == Header
  {
    if |rows| == 0 then Output([], None)
    else if |rows| == 1 then Output([Header], None)
    else
      var o := Transposed(rows[..|rows| - 1]);
      var row := rows[|rows| - 1];
      if o.failure.Some? then o
      else if |row| == 0 then Output(o.lines, Some(IndexError))
      else
        var more := RowLines(rows[0], row, |row|);
        Output(o.lines + more.lines, more.failure)
  }

  /** The inner loop over the cells of one data line. */
  method WriteRow(cols: seq<string>, row: seq<string>) returns (o: Output)
    requires |row| > 0
    ensures o == RowLines(cols, row, |row|)
  {
    var written: seq<seq<string>> := [];
    for y := 1 to |row|
      invariant RowLines(cols, row, y) == Output(written, None)
    {
      var cell := CellLine(cols, row, y);
      if cell.Err? {
        o := Output(written, Some(cell.error));
        assert o == RowLines(cols, row, y + 1);
        RowLinesStop(cols, row, y + 1, |row|);
        return;
      }
      if cell.value.Some? {
        written := written + [cell.value.value];
      }
    }
    o := Output(written, None);
  }

  /** A failure ends the line: later cells write nothing. */
  lemma {:induction false} RowLinesStop(cols: seq<string>, row: seq<string>, k: nat, m: nat)
    requires 1 <= k <= m <= |row| && RowLines(cols, row, k).failure.Some?
    ensures RowLines(cols, row, m) == RowLines(cols, row, k)
  {
    if m > k {
      RowLinesStop(cols, row, k, m - 1);
    }
  }

  /** A failure ends the file: later lines write nothing. */
  lemma {:induction false} TransposedStop(rows: seq<seq<string>>, x: nat)
    requires 1 <= x <= |rows| && Transposed(rows[..x]).failure.Some?
    ensures Transposed(rows) == Transposed(rows[..x])
  {
    if x < |rows| {
      assert rows[..x] == rows[..|rows| - 1][..x];
      TransposedStop(rows[..|rows| - 1], x);
    } else {
      assert rows[..x] == rows;
    }
  }

  /** The transpose loop: it writes exactly what Transposed describes. */
  method TransposeFile(rows: seq<seq<string>>) returns (o: Output)
    ensures o == Transposed(rows)
  {
    if |rows| == 0 {
      return Output([], None);
    }
    var cols := rows[0];
    var lines: seq<seq<string>> := [Header];
    assert rows[..1] == [rows[0]];
    for x := 1 to |rows|
      invariant Transposed(rows[..x]) == Output(lines, None)
    {
      assert rows[..x + 1][..x] == rows[..x];
      var row := rows[x];
      if |row| == 0 {
        o := Output(lines, Some(IndexError));
        assert o == Transposed(rows[..x + 1]);
        TransposedStop(rows, x + 1);
        return;
      }
      var more := WriteRow(cols, row);
      lines := lines + more.lines;
      if more.failure.Some? {
        o := Output(lines, more.failure);
        assert o == Transposed(rows[..x + 1]);
        TransposedStop(rows, x + 1);
        return;
      }
    }
    assert rows[..|rows|] == rows;
    o := Output(lines, None);
  }

  /**
   * After the header, a data line appends the lines of its cells to those
   * already written: with k non-empty cells and no failure, exactly k lines.
   */
  lemma DataLineCount(rows: seq<seq<string>>, row: seq<string>)
    requires |rows| > 0 && |row| > 0 && Transposed(rows).failure.None?
    ensures var more := RowLines(rows[0], row, |row|);
      Transposed(rows + [row]) == Output(Transposed(rows).lines + more.lines, more.failure)
    ensures RowLines(rows[0], row, |row|).failure.None? ==>
      |Transposed(rows + [row]).lines| == |Transposed(rows).lines| + Count(row[1..|row|], Filled)
  {
    var all := rows + [row];
    assert all[..|all| - 1] == rows && all[|all| - 1] == row && all[0] == rows[0];
    var o := Transposed(rows);
    var more := RowLines(rows[0], row, |row|);
    assert |all| >= 2;
    assert Transposed(all) == (if o.failure.Some? then o else Output(o.lines + more.lines, more.failure));
  }

  /** No '-' and no '.' in a part of a column name. */
  predicate Plain(s: string)
  {
    '-' !in s && '.' !in s
  }

  /** A canonical "F-I.N" column writes [eid, F, I, N, value]. */
  lemma CanonicalLine(cols: seq<string>, row: seq<string>, j: nat, f: string, i: string, n: string)
    requires 1 <= j < |row| && j < |cols| && row[j] != ""
    requires Plain(f) && Plain(i) && Plain(n) && cols[j] == f + "-" + i + "." + n
    ensures CellLine(cols, row, j) == Ok(Some([row[0], f, i, n, row[j]]))
  {
    var head := f + "-" + i;
    assert cols[j] == head + "." + n;
    assert '.' !in head;
    SplitAfterSeparator(head, '.', n);
    SplitAfterSeparator(f, '-', i);
  }

  /**
   * A column name without '.' fails with IndexError, although the fallback
   * branch meant to set n to 0: the unconditional split('.')[1] overrides it.
   */
  lemma NoDotFails(cols: seq<string>, row: seq<string>, j: nat)
    requires 1 <= j < |row| && j < |cols| && row[j] != "" && '.' !in cols[j]
    ensures CellLine(cols, row, j) == Err(IndexError)
  {
  }
}
