/** `format_query_result`: renders the rows a query returned as a Markdown
    table, a header from the first row's column names, a separator line and
    one line per row, or a fixed notice when there are no rows. */
module QueryResult {
  import opened Text

  /** A value the database driver returned, as Python's `str()` and
      `repr()` render it. */
  datatype Value = Value(str: string, repr: string)

  /** One row as the dictionary cursor returns it: column names with their
      values, in column order. */
  type Row = seq<(string, Value)>

  /** "ℹ️ No results found." */
  const NoResults := "\U{2139}\U{FE0F} No results found."
  const Title := "**Query Results:**"

  /** The column names of a row, in order. */
  function Keys(row: Row): seq<string>
  {
    seq(|row|, i requires 0 <= i < |row| => row[i].0)
  }

  /** `str()` of each value of a row, in column order. */
  function Cells(row: Row): seq<string>
  {
    seq(|row|, i requires 0 <= i < |row| => row[i].1.str)
  }

  /** `"| " + " | ".join(parts) + " |"`, one table line. */
  function TableLine(parts: seq<string>): string {
    "| " + Join(" | ", parts) + " |"
  }

  /** `["---"] * n` */
  function Dashes(n: nat): seq<string>
  {
    seq(n, _ => "---")
  }

  /** One table line per row, in order. */
  function RowLines(rows: seq<Row>): seq<string>
  {
    seq(|rows|, i requires 0 <= i < |rows| => TableLine(Cells(rows[i])))
  }

  /** The title, a blank line, the header and the separator, each ended by
      a newline. */
  function Preamble(keys: seq<string>): string {
    Title + "\n\n" + TableLine(keys) + "\n" + TableLine(Dashes(|keys|)) + "\n"
  }

  /** What `format_query_result` returns for `rows`. */
  function Table(rows: seq<Row>): string {
    if rows == [] then NoResults
    else Preamble(Keys(rows[0])) + Unlines(RowLines(rows))
  }

  /** One more row appends its line and a newline. */
  lemma TableStep(head: string, rows: seq<Row>, i: nat)
    requires i < |rows|
    ensures head + Unlines(RowLines(rows[..i + 1])) == head + Unlines(RowLines(rows[..i])) + TableLine(Cells(rows[i])) + "\n"
  {
    var line := TableLine(Cells(rows[i]));
    assert RowLines(rows[..i + 1]) == RowLines(rows[..i]) + [line];
    UnlinesSnoc(RowLines(rows[..i]), line);
    AppendAssoc(head, Unlines(RowLines(rows[..i])) + line, "\n");
    AppendAssoc(head, Unlines(RowLines(rows[..i])), line);
  }

  /** `format_query_result(result)`: the accumulation loop over the rows. */
  method FormatQueryResult(rows: seq<Row>) returns (r: string)
    ensures r == Table(rows)
  {
    if rows == [] {
      return NoResults;
    }
    var headers := Keys(rows[0]);
    r := Title + "\n\n" + TableLine(headers) + "\n" + TableLine(Dashes(|headers|)) + "\n";
    var i := 0;
    while i < |rows|
      invariant 0 <= i <= |rows|
      invariant r == Preamble(headers) + Unlines(RowLines(rows[..i]))
    {
      TableStep(Preamble(headers), rows, i);
      r := r + TableLine(Cells(rows[i])) + "\n";
      i := i + 1;
    }
    assert rows[..i] == rows;
  }

  /** Number of occurrences of `c` in `s`. */
  function Count(c: char, s: string): nat
    decreases |s|
  {
    if s == [] then 0 else (if s[0] == c then 1 else 0) + Count(c, s[1..])
  }

  lemma {:induction false} CountAppend(c: char, a: string, b: string)
    ensures Count(c, a + b) == Count(c, a) + Count(c, b)
    decreases |a|
  {
    if a == [] {
      assert a + b == b;
    } else {
      assert (a + b)[0] == a[0] && (a + b)[1..] == a[1..] + b;
      CountAppend(c, a[1..], b);
    }
  }

  lemma {:induction false} CountAbsent(c: char, s: string)
    requires c !in s
    ensures Count(c, s) == 0
    decreases |s|
  {
    if s != [] {
      CountAbsent(c, s[1..]);
    }
  }

  /** A join of parts without `c`, by a separator holding `c` once, holds
      `c` once per gap between two parts. */
  lemma {:induction false} CountJoin(c: char, sep: string, parts: seq<string>)
    requires Count(c, sep) == 1
    requires forall i :: 0 <= i < |parts| ==> c !in parts[i]
    ensures Count(c, Join(sep, parts)) == if parts == [] then 0 else |parts| - 1
    decreases |parts|
  {
    if |parts| == 1 {
      CountAbsent(c, parts[0]);
    } else if |parts| > 1 {
      CountJoin(c, sep, parts[1..]);
      CountAbsent(c, parts[0]);
      CountAppend(c, parts[0] + sep, Join(sep, parts[1..]));
      CountAppend(c, parts[0], sep);
    }
  }

  /** A table line over parts without `|` has one `|` per column
      boundary: two for no parts, one more than the parts otherwise. */
  lemma TableLineBars(parts: seq<string>)
    requires forall i :: 0 <= i < |parts| ==> '|' !in parts[i]
    ensures Count('|', TableLine(parts)) == if parts == [] then 2 else |parts| + 1
  {
    assert " | " == [' ', '|', ' '];
    assert Count('|', " | ") == 1;
    CountJoin('|', " | ", parts);
    CountAppend('|', "| " + Join(" | ", parts), " |");
    CountAppend('|', "| ", Join(" | ", parts));
  }

  /** The separator has exactly one `---` cell per header: the header line
      and the separator line have the same number of `|` when no column
      name holds one. */
  lemma HeaderAndSeparatorAlign(keys: seq<string>)
    requires forall i :: 0 <= i < |keys| ==> '|' !in keys[i]
    ensures Count('|', TableLine(keys)) == Count('|', TableLine(Dashes(|keys|)))
  {
    TableLineBars(keys);
    TableLineBars(Dashes(|keys|));
  }

  lemma {:induction false} UnlinesAppend(a: seq<string>, b: seq<string>)
    ensures Unlines(a + b) == Unlines(a) + Unlines(b)
    decreases |a|
  {
    if a == [] {
      assert a + b == b;
    } else {
      assert (a + b)[0] == a[0] && (a + b)[1..] == a[1..] + b;
      UnlinesAppend(a[1..], b);
    }
  }

  lemma {:induction false} JoinAvoids(c: char, sep: string, parts: seq<string>)
    requires c !in sep
    requires forall i :: 0 <= i < |parts| ==> c !in parts[i]
    ensures c !in Join(sep, parts)
    decreases |parts|
  {
    if |parts| > 1 {
      JoinAvoids(c, sep, parts[1..]);
    }
  }

  /** The preamble is four newline-ended lines. */
  lemma PreambleLines(keys: seq<string>)
    ensures Unlines([Title, "", TableLine(keys), TableLine(Dashes(|keys|))]) == Preamble(keys)
  {
    var head := [Title, "", TableLine(keys), TableLine(Dashes(|keys|))];
    var h3 := [TableLine(Dashes(|keys|))];
    var h2 := [TableLine(keys)] + h3;
    var h1 := [""] + h2;
    assert head[1..] == h1 && h1[1..] == h2 && h2[1..] == h3 && h3[1..] == [];
    var a, b := TableLine(keys), TableLine(Dashes(|keys|));
    assert Unlines(h3) == b + "\n";
    assert Unlines(h2) == a + "\n" + (b + "\n");
    assert Unlines(h1) == "" + "\n" + (a + "\n" + (b + "\n"));
    assert Unlines(head) == Title + "\n" + ("" + "\n" + (a + "\n" + (b + "\n")));
    assert "\n" + ("" + "\n") == "\n\n";
  }

  /** With no newline in a column name or a cell, no line of the table
      holds one. */
  lemma TableLinesFlat(rows: seq<Row>)
    requires rows != []
    requires forall i :: 0 <= i < |rows[0]| ==> '\n' !in rows[0][i].0
    requires forall i, j :: 0 <= i < |rows| && 0 <= j < |rows[i]| ==> '\n' !in rows[i][j].1.str
    ensures var all := [Title, "", TableLine(Keys(rows[0])), TableLine(Dashes(|rows[0]|))] + RowLines(rows);
      forall i :: 0 <= i < |all| ==> '\n' !in all[i]
  {
    var keys := Keys(rows[0]);
    var head := [Title, "", TableLine(keys), TableLine(Dashes(|keys|))];
    var all := head + RowLines(rows);
    assert " | " == [' ', '|', ' '];
    JoinAvoids('\n', " | ", keys);
    JoinAvoids('\n', " | ", Dashes(|keys|));
    forall i | 0 <= i < |all| ensures '\n' !in all[i] {
      if i >= |head| {
        assert all[i] == TableLine(Cells(rows[i - |head|]));
        JoinAvoids('\n', " | ", Cells(rows[i - |head|]));
      }
    }
  }

  /** With no newline in a column name or a cell, the text splits on
      newlines into the title, a blank line, the header, the separator and
      then one line per row in input order (and the empty piece after the
      final newline). */
  lemma TableLinesInOrder(rows: seq<Row>)
    requires rows != []
    requires forall i :: 0 <= i < |rows[0]| ==> '\n' !in rows[0][i].0
    requires forall i, j :: 0 <= i < |rows| && 0 <= j < |rows[i]| ==> '\n' !in rows[i][j].1.str
    ensures Split(Table(rows), '\n') ==
      [Title, "", TableLine(Keys(rows[0])), TableLine(Dashes(|rows[0]|))] + RowLines(rows) + [""]
  {
    var keys := Keys(rows[0]);
    var head := [Title, "", TableLine(keys), TableLine(Dashes(|keys|))];
    TableLinesFlat(rows);
    UnlinesAppend(head, RowLines(rows));
    PreambleLines(keys);
    SplitUnlines(head + RowLines(rows));
  }

  /** Line `4 + i` of the text, after the title, the blank line, the header
      and the separator, is row `i`: `str()` of its values between bars, in
      column order. The text holds those lines and the empty piece after the
      final newline, nothing more. */
  lemma TableRow(rows: seq<Row>, i: nat)
    requires i < |rows|
    requires forall k :: 0 <= k < |rows[0]| ==> '\n' !in rows[0][k].0
    requires forall k, j :: 0 <= k < |rows| && 0 <= j < |rows[k]| ==> '\n' !in rows[k][j].1.str
    ensures |Split(Table(rows), '\n')| == |rows| + 5
    ensures Split(Table(rows), '\n')[4 + i] == "| " + Join(" | ", Cells(rows[i])) + " |"
  {
    var head := [Title, "", TableLine(Keys(rows[0])), TableLine(Dashes(|rows[0]|))];
    var body := RowLines(rows);
    var lines := Split(Table(rows), '\n');
    assert lines == head + body + [""] by {
      TableLinesInOrder(rows);
    }
    assert |body| == |rows| && body[i] == TableLine(Cells(rows[i]));
    assert lines[4 + i] == body[i];
  }
}
