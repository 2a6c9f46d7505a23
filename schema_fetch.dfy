/** `src/schema_fetch.py`: `get_database_metadata` lists the tables and, per
    table, its CREATE TABLE text and a metadata block of columns, secondary
    indexes and foreign keys. The server is given by what each
    introspection statement returns; any failure anywhere yields
    `(None, None)`. */
module SchemaFetch {
  import opened Wrappers
  import opened Text

  /** A row of `DESCRIBE t`. */
  datatype Column = Column(field: string, sqlType: string, key: string, nullable: string)

  /** A row of `SHOW INDEX FROM t`. */
  datatype Index = Index(keyName: string, columnName: string, nonUnique: int)

  /** A row of the `KEY_COLUMN_USAGE` query for `t`. */
  datatype ForeignKey = ForeignKey(column: string, refTable: string, refColumn: string)

  /** What one introspection statement gave: its result, or an exception. */
  datatype Reply<T> = Ok(value: T) | Raised(message: string)

  /** The replies to the four statements issued for one table. */
  datatype TableReplies = TableReplies(
    createTable: Reply<string>,
    describe: Reply<seq<Column>>,
    indexes: Reply<seq<Index>>,
    foreignKeys: Reply<seq<ForeignKey>>)

  /** The MySQL server as seen from `get_database_metadata`: whether the
      connection opens, the `SHOW TABLES` reply and the replies per table. */
  datatype Server = Server(connects: bool, showTables: Reply<seq<string>>, table: string -> TableReplies)

  const Indent := "  "
  const IndexesHeader := "INDEXES:"
  const RelationshipsHeader := "RELATIONSHIPS:"
  /** " → " */
  const Arrow := " \U{2192} "

  function KeyMarker(key: string): string {
    (if key == "PRI" then "PK" else "") + (if key == "MUL" then "FK" else "")
  }

  function NullMarker(nullable: string): string {
    if nullable == "NO" then " NOT NULL" else ""
  }

  function ColumnLine(c: Column): string {
    Indent + c.field + ": " + c.sqlType + " " + KeyMarker(c.key) + NullMarker(c.nullable)
  }

  function Uniqueness(nonUnique: int): string {
    if nonUnique == 0 then "UNIQUE" else "NON-UNIQUE"
  }

  function IndexLine(x: Index): string {
    Indent + x.keyName + ": " + x.columnName + " (" + Uniqueness(x.nonUnique) + ")"
  }

  function ForeignKeyLine(f: ForeignKey): string {
    Indent + f.column + Arrow + f.refTable + "." + f.refColumn
  }

  /** One line per column, in order. */
  function ColumnLines(cols: seq<Column>): seq<string> {
    seq(|cols|, i requires 0 <= i < |cols| => ColumnLine(cols[i]))
  }

  lemma ColumnLinesStep(cols: seq<Column>, j: nat)
    requires j < |cols|
    ensures ColumnLines(cols[..j + 1]) == ColumnLines(cols[..j]) + [ColumnLine(cols[j])]
  {
    var r := ColumnLines(cols[..j + 1]);
    var q := ColumnLines(cols[..j]) + [ColumnLine(cols[j])];
    forall i | 0 <= i < j + 1 ensures r[i] == q[i] {
      assert cols[..j + 1][i] == cols[i];
    }
  }

  /** One line per index entry whose key is not `PRIMARY`, in order. */
  function IndexLines(xs: seq<Index>): seq<string>
    decreases |xs|
  {
    if xs == [] then []
    else
      var last := xs[|xs| - 1];
      IndexLines(xs[..|xs| - 1]) + (if last.keyName != "PRIMARY" then [IndexLine(last)] else [])
  }

  /** One more index: its line, unless it is the primary key. */
  lemma IndexLinesStep(xs: seq<Index>, j: nat)
    requires j < |xs|
    ensures xs[j].keyName != "PRIMARY" ==> IndexLines(xs[..j + 1]) == IndexLines(xs[..j]) + [IndexLine(xs[j])]
    ensures xs[j].keyName == "PRIMARY" ==> IndexLines(xs[..j + 1]) == IndexLines(xs[..j])
  {
    assert xs[..j + 1][..j] == xs[..j];
  }

  /** One line per foreign key, in order. */
  function ForeignKeyLines(fks: seq<ForeignKey>): seq<string> {
    seq(|fks|, i requires 0 <= i < |fks| => ForeignKeyLine(fks[i]))
  }

  lemma ForeignKeyLinesStep(fks: seq<ForeignKey>, j: nat)
    requires j < |fks|
    ensures ForeignKeyLines(fks[..j + 1]) == ForeignKeyLines(fks[..j]) + [ForeignKeyLine(fks[j])]
  {
    var r := ForeignKeyLines(fks[..j + 1]);
    var q := ForeignKeyLines(fks[..j]) + [ForeignKeyLine(fks[j])];
    forall i | 0 <= i < j + 1 ensures r[i] == q[i] {
      assert fks[..j + 1][i] == fks[i];
    }
  }

  function IndexSection(xs: seq<Index>): seq<string> {
    if xs != [] then [IndexesHeader] + IndexLines(xs) else []
  }

  function RelationshipSection(fks: seq<ForeignKey>): seq<string> {
    if fks != [] then [RelationshipsHeader] + ForeignKeyLines(fks) else []
  }

  /** The metadata lines of one table. */
  function TableBlock(name: string, cols: seq<Column>, xs: seq<Index>, fks: seq<ForeignKey>): seq<string> {
    ["=== TABLE: " + name + " ===", "COLUMNS:"] + ColumnLines(cols)
      + IndexSection(xs) + RelationshipSection(fks) + [""]
  }

  /** The DDL text and the metadata block of one table, or nothing when
      one of its statements raised. */
  function TableOutput(name: string, r: TableReplies): Option<(string, seq<string>)> {
    if r.createTable.Ok? && r.describe.Ok? && r.indexes.Ok? && r.foreignKeys.Ok? then
      Some((r.createTable.value, TableBlock(name, r.describe.value, r.indexes.value, r.foreignKeys.value)))
    else None
  }

  /** The DDL texts and the metadata lines of the listed tables, in order,
      or nothing when some statement raised. */
  function TablesOutput(server: Server, tables: seq<string>): Option<(seq<string>, seq<string>)>
    decreases |tables|
  {
    if tables == [] then Some(([], []))
    else
      var last := tables[|tables| - 1];
      match TablesOutput(server, tables[..|tables| - 1])
      case None => None
      case Some(acc) =>
        match TableOutput(last, server.table(last))
        case None => None
        case Some(t) => Some((acc.0 + [t.0], acc.1 + t.1))
  }

  /** One more table: its output appended, or nothing when it fails. */
  lemma TablesOutputStep(server: Server, tables: seq<string>, i: nat)
    requires i < |tables|
    ensures TablesOutput(server, tables[..i + 1]) ==
      match TablesOutput(server, tables[..i])
      case None => None
      case Some(acc) =>
        match TableOutput(tables[i], server.table(tables[i]))
        case None => None
        case Some(t) => Some((acc.0 + [t.0], acc.1 + t.1))
  {
    assert tables[..i + 1][..i] == tables[..i];
  }

  /** What `get_database_metadata` returns. */
  function Metadata(server: Server): (Option<string>, Option<string>) {
    if !server.connects || server.showTables.Raised? then (None, None)
    else
      match TablesOutput(server, server.showTables.value)
      case None => (None, None)
      case Some(out) => (Some(Join("\n\n", out.0)), Some(Join("\n", out.1)))
  }

  /** A failure among the first tables is a failure of all of them. */
  lemma {:induction false} FailureSticks(server: Server, tables: seq<string>, k: nat)
    requires k <= |tables| && TablesOutput(server, tables[..k]).None?
    ensures TablesOutput(server, tables).None?
    decreases |tables| - k
  {
    if k < |tables| {
      assert tables[..k + 1][..k] == tables[..k];
      FailureSticks(server, tables, k + 1);
    } else {
      assert tables[..k] == tables;
    }
  }

  /** The `for col in columns` loop: one line per column, in order. */
  method AppendColumnLines(lines: seq<string>, columns: seq<Column>) returns (r: seq<string>)
    ensures r == lines + ColumnLines(columns)
  {
    r := lines;
    var j := 0;
    while j < |columns|
      invariant 0 <= j <= |columns|
      invariant r == lines + ColumnLines(columns[..j])
    {
      ColumnLinesStep(columns, j);
      AppendAssoc(lines, ColumnLines(columns[..j]), [ColumnLine(columns[j])]);
      r := r + [ColumnLine(columns[j])];
      j := j + 1;
    }
    assert columns[..j] == columns;
  }

  /** The `if indexes:` section: the header, then one line per entry that
      is not `PRIMARY`. */
  method AppendIndexSection(lines: seq<string>, indexes: seq<Index>) returns (r: seq<string>)
    ensures r == lines + IndexSection(indexes)
  {
    r := lines;
    if indexes != [] {
      r := r + [IndexesHeader];
      ghost var head := r;
      var j := 0;
      while j < |indexes|
        invariant 0 <= j <= |indexes|
        invariant r == head + IndexLines(indexes[..j])
      {
        IndexLinesStep(indexes, j);
        if indexes[j].keyName != "PRIMARY" {
          AppendAssoc(head, IndexLines(indexes[..j]), [IndexLine(indexes[j])]);
          r := r + [IndexLine(indexes[j])];
        }
        j := j + 1;
      }
      assert indexes[..j] == indexes;
      AppendAssoc(lines, [IndexesHeader], IndexLines(indexes));
    }
  }

  /** The `if fks:` section: the header, then one line per foreign key. */
  method AppendRelationshipSection(lines: seq<string>, fks: seq<ForeignKey>) returns (r: seq<string>)
    ensures r == lines + RelationshipSection(fks)
  {
    r := lines;
    if fks != [] {
      r := r + [RelationshipsHeader];
      ghost var head := r;
      var j := 0;
      while j < |fks|
        invariant 0 <= j <= |fks|
        invariant r == head + ForeignKeyLines(fks[..j])
      {
        ForeignKeyLinesStep(fks, j);
        AppendAssoc(head, ForeignKeyLines(fks[..j]), [ForeignKeyLine(fks[j])]);
        r := r + [ForeignKeyLine(fks[j])];
        j := j + 1;
      }
      assert fks[..j] == fks;
      AppendAssoc(lines, [RelationshipsHeader], ForeignKeyLines(fks));
    }
  }

  /** `get_database_metadata()`: the loop over the tables. */
  method GetDatabaseMetadata(server: Server) returns (ddl: Option<string>, metadata: Option<string>)
    ensures (ddl, metadata) == Metadata(server)
    ensures ddl.Some? <==> metadata.Some?
  {
    if !server.connects || server.showTables.Raised? {
      return None, None;
    }
    var tables := server.showTables.value;
    var ddlStatements: seq<string> := [];
    var metadataLines: seq<string> := [];
    var i := 0;
    while i < |tables|
      invariant 0 <= i <= |tables|
      invariant TablesOutput(server, tables[..i]) == Some((ddlStatements, metadataLines))
    {
      var table := tables[i];
      var replies := server.table(table);
      TablesOutputStep(server, tables, i);
      if !(replies.createTable.Ok? && replies.describe.Ok? && replies.indexes.Ok?) {
        FailureSticks(server, tables, i + 1);
        return None, None;
      }
      ddlStatements := ddlStatements + [replies.createTable.value];
      var block := ["=== TABLE: " + table + " ===", "COLUMNS:"];
      block := AppendColumnLines(block, replies.describe.value);
      block := AppendIndexSection(block, replies.indexes.value);
      if replies.foreignKeys.Raised? {
        FailureSticks(server, tables, i + 1);
        return None, None;
      }
      block := AppendRelationshipSection(block, replies.foreignKeys.value);
      block := block + [""];
      assert block == TableBlock(table, replies.describe.value, replies.indexes.value, replies.foreignKeys.value);
      metadataLines := metadataLines + block;
      i := i + 1;
    }
    assert tables[..i] == tables;
    return Some(Join("\n\n", ddlStatements)), Some(Join("\n", metadataLines));
  }

  /** On success the DDL text is every table's CREATE TABLE text, in
      `SHOW TABLES` order, separated by blank lines. */
  lemma DdlInTableOrder(server: Server, tables: seq<string>)
    requires TablesOutput(server, tables).Some?
    ensures var ddls := TablesOutput(server, tables).value.0;
      && |ddls| == |tables|
      && forall i :: 0 <= i < |tables| ==>
           server.table(tables[i]).createTable.Ok? && ddls[i] == server.table(tables[i]).createTable.value
  {
    DdlCount(server, tables);
    forall i | 0 <= i < |tables|
      ensures server.table(tables[i]).createTable.Ok?
      ensures TablesOutput(server, tables).value.0[i] == server.table(tables[i]).createTable.value
    {
      DdlAt(server, tables, i);
    }
  }

  /** One CREATE TABLE text per table. */
  lemma {:induction false} DdlCount(server: Server, tables: seq<string>)
    requires TablesOutput(server, tables).Some?
    ensures |TablesOutput(server, tables).value.0| == |tables|
    decreases |tables|
  {
    if tables != [] {
      DdlSnoc(server, tables);
      DdlCount(server, tables[..|tables| - 1]);
    }
  }

  /** The `i`-th CREATE TABLE text is the `i`-th table's. */
  lemma {:induction false} DdlAt(server: Server, tables: seq<string>, i: nat)
    requires TablesOutput(server, tables).Some? && i < |tables|
    ensures server.table(tables[i]).createTable.Ok?
    ensures var ddls := TablesOutput(server, tables).value.0;
      i < |ddls| && ddls[i] == server.table(tables[i]).createTable.value
    decreases |tables|
  {
    var init := tables[..|tables| - 1];
    DdlSnocAt(server, tables, i);
    if i < |init| {
      DdlAt(server, init, i);
      assert init[i] == tables[i];
    }
  }

  /** The `i`-th CREATE TABLE text comes from the tables before the last
      one, or is the last table's. */
  lemma DdlSnocAt(server: Server, tables: seq<string>, i: nat)
    requires TablesOutput(server, tables).Some? && i < |tables|
    ensures var n := |tables| - 1;
      && TablesOutput(server, tables[..n]).Some?
      && var ddls := TablesOutput(server, tables).value.0;
         var prev := TablesOutput(server, tables[..n]).value.0;
         && |prev| == n && |ddls| == |tables|
         && (i < n ==> ddls[i] == prev[i])
         && (i == n ==> server.table(tables[i]).createTable.Ok? && ddls[i] == server.table(tables[i]).createTable.value)
  {
    var n := |tables| - 1;
    var init := tables[..n];
    DdlSnoc(server, tables);
    DdlCount(server, init);
    var ddls := TablesOutput(server, tables).value.0;
    var prev := TablesOutput(server, init).value.0;
    assert ddls == prev + [server.table(tables[n]).createTable.value];
  }

  /** The last table's CREATE TABLE text comes after the others'. */
  lemma DdlSnoc(server: Server, tables: seq<string>)
    requires tables != [] && TablesOutput(server, tables).Some?
    ensures var n := |tables| - 1;
      && TablesOutput(server, tables[..n]).Some?
      && server.table(tables[n]).createTable.Ok?
      && TablesOutput(server, tables).value.0
         == TablesOutput(server, tables[..n]).value.0 + [server.table(tables[n]).createTable.value]
  {
  }

  /** A column line ends with ` NOT NULL` exactly when `Null` is `NO`;
      before that it ends with `PK` exactly for key `PRI` and with `FK`
      exactly for key `MUL`, so never with both. */
  lemma ColumnMarkers(c: Column)
    ensures var line := ColumnLine(c);
      && (EndsWith(line, " NOT NULL") <==> c.nullable == "NO")
      && var head := if c.nullable == "NO" then line[..|line| - 9] else line;
         && (EndsWith(head, "PK") <==> c.key == "PRI")
         && (EndsWith(head, "FK") <==> c.key == "MUL")
  {
    var prefix := Indent + c.field + ": " + c.sqlType + " ";
    var head := prefix + KeyMarker(c.key);
    KeyMarkerEnds(prefix, c.key);
    NullMarkerEnds(head, c.nullable);
    assert ColumnLine(c) == head + NullMarker(c.nullable);
  }

  /** After a space, the key marker ends the text with `PK` exactly for
      `PRI` and with `FK` exactly for `MUL`, and never with `L`. */
  lemma KeyMarkerEnds(prefix: string, key: string)
    requires |prefix| > 0 && prefix[|prefix| - 1] == ' '
    ensures var head := prefix + KeyMarker(key);
      && |head| > 0 && head[|head| - 1] != 'L'
      && (EndsWith(head, "PK") <==> key == "PRI")
      && (EndsWith(head, "FK") <==> key == "MUL")
  {
    var head := prefix + KeyMarker(key);
    if key == "PRI" {
      assert head == prefix + "PK";
    } else if key == "MUL" {
      assert head == prefix + "FK";
    } else {
      assert head == prefix;
      if |head| >= 2 {
        assert head[|head| - 2..][1] == head[|head| - 1];
      }
    }
  }

  /** The null marker ends the text with ` NOT NULL` exactly for `NO`;
      taking it off gives the text before it. */
  lemma NullMarkerEnds(head: string, nullable: string)
    requires |head| > 0 && head[|head| - 1] != 'L'
    ensures var line := head + NullMarker(nullable);
      && (EndsWith(line, " NOT NULL") <==> nullable == "NO")
      && (nullable == "NO" ==> line[..|line| - 9] == head)
      && (nullable != "NO" ==> line == head)
  {
    var line := head + NullMarker(nullable);
    if nullable == "NO" {
      assert line[..|line| - 9] == head;
    } else if |line| >= 9 {
      assert line[|line| - 9..][8] == line[|line| - 1];
    }
  }

  /** An index line ends with ` (UNIQUE)` exactly when `Non_unique` is 0. */
  lemma UniqueMarker(x: Index)
    ensures EndsWith(IndexLine(x), " (UNIQUE)") <==> x.nonUnique == 0
  {
    var line := IndexLine(x);
    var head := Indent + x.keyName + ": " + x.columnName + " (";
    assert line == head + Uniqueness(x.nonUnique) + ")";
    if x.nonUnique != 0 {
      assert line[|line| - 9] == 'N';
      assert line[|line| - 9..][0] == line[|line| - 9];
    } else {
      assert line[|line| - 9..] == " (UNIQUE)";
    }
  }

  /** Index entries with key `PRIMARY` are never listed; every other entry
      is, in order. */
  lemma IndexLinesSkipPrimary(xs: seq<Index>)
    ensures forall l :: l in IndexLines(xs) ==> exists i :: 0 <= i < |xs| && xs[i].keyName != "PRIMARY" && l == IndexLine(xs[i])
    ensures forall i :: 0 <= i < |xs| && xs[i].keyName != "PRIMARY" ==> IndexLine(xs[i]) in IndexLines(xs)
  {
    forall l | l in IndexLines(xs)
      ensures exists i :: 0 <= i < |xs| && xs[i].keyName != "PRIMARY" && l == IndexLine(xs[i])
    {
      var i := IndexLineSource(xs, l);
    }
    forall i | 0 <= i < |xs| && xs[i].keyName != "PRIMARY" ensures IndexLine(xs[i]) in IndexLines(xs) {
      IndexLineListed(xs, i);
    }
  }

  /** Every listed line comes from a non-`PRIMARY` entry. */
  lemma {:induction false} IndexLineSource(xs: seq<Index>, l: string) returns (i: nat)
    requires l in IndexLines(xs)
    ensures i < |xs| && xs[i].keyName != "PRIMARY" && l == IndexLine(xs[i])
    decreases |xs|
  {
    var n := |xs| - 1;
    var init := xs[..n];
    assert IndexLines(xs) == IndexLines(init) + (if xs[n].keyName != "PRIMARY" then [IndexLine(xs[n])] else []);
    if l in IndexLines(init) {
      i := IndexLineSource(init, l);
      assert xs[i] == init[i];
    } else {
      i := n;
    }
  }

  /** Every non-`PRIMARY` entry is listed. */
  lemma {:induction false} IndexLineListed(xs: seq<Index>, i: nat)
    requires i < |xs| && xs[i].keyName != "PRIMARY"
    ensures IndexLine(xs[i]) in IndexLines(xs)
    decreases |xs|
  {
    var n := |xs| - 1;
    var init := xs[..n];
    assert IndexLines(xs) == IndexLines(init) + (if xs[n].keyName != "PRIMARY" then [IndexLine(xs[n])] else []);
    if i < n {
      assert xs[i] == init[i];
      IndexLineListed(init, i);
    }
  }

  /** A table whose only index entries are `PRIMARY` still gets the
      `INDEXES:` header, with no entry under it. */
  lemma {:induction false} PrimaryOnlyHeader(xs: seq<Index>)
    requires xs != [] && forall i :: 0 <= i < |xs| ==> xs[i].keyName == "PRIMARY"
    ensures IndexSection(xs) == [IndexesHeader]
  {
    AllPrimaryNoLines(xs);
  }

  lemma {:induction false} AllPrimaryNoLines(xs: seq<Index>)
    requires forall i :: 0 <= i < |xs| ==> xs[i].keyName == "PRIMARY"
    ensures IndexLines(xs) == []
    decreases |xs|
  {
    if xs != [] {
      AllPrimaryNoLines(xs[..|xs| - 1]);
    }
  }

  /** Every line is non-empty and starts with a space. */
  ghost predicate Indented(lines: seq<string>) {
    forall i :: 0 <= i < |lines| ==> |lines[i]| > 0 && lines[i][0] == ' '
  }

  /** Listed index entries start with the indent, like every entry line,
      so no entry is mistaken for a section header. */
  lemma {:induction false} IndexLinesIndented(xs: seq<Index>)
    ensures Indented(IndexLines(xs))
    decreases |xs|
  {
    if xs != [] {
      IndexLinesIndented(xs[..|xs| - 1]);
    }
  }

  lemma EntriesIndented(cols: seq<Column>, fks: seq<ForeignKey>)
    ensures Indented(ColumnLines(cols)) && Indented(ForeignKeyLines(fks))
  {
  }

  lemma HeaderNotIndented(h: string, lines: seq<string>)
    requires Indented(lines) && |h| > 0 && h[0] != ' '
    ensures h !in lines
  {
  }

  /** `INDEXES:` appears in a table's block exactly when it has index
      entries, and `RELATIONSHIPS:` exactly when it has foreign keys. */
  lemma SectionHeaders(name: string, cols: seq<Column>, xs: seq<Index>, fks: seq<ForeignKey>)
    ensures IndexesHeader in TableBlock(name, cols, xs, fks) <==> xs != []
    ensures RelationshipsHeader in TableBlock(name, cols, xs, fks) <==> fks != []
  {
    var title := "=== TABLE: " + name + " ===";
    assert title[0] == '=';
    IndexLinesIndented(xs);
    EntriesIndented(cols, fks);
    HeaderNotIndented(IndexesHeader, ColumnLines(cols));
    HeaderNotIndented(IndexesHeader, IndexLines(xs));
    HeaderNotIndented(IndexesHeader, ForeignKeyLines(fks));
    HeaderNotIndented(RelationshipsHeader, ColumnLines(cols));
    HeaderNotIndented(RelationshipsHeader, IndexLines(xs));
    HeaderNotIndented(RelationshipsHeader, ForeignKeyLines(fks));
    var front := [title, "COLUMNS:"] + ColumnLines(cols);
    assert IndexesHeader !in front && RelationshipsHeader !in front;
    assert IndexesHeader !in RelationshipSection(fks);
    assert RelationshipsHeader !in IndexSection(xs);
    assert TableBlock(name, cols, xs, fks) == front + IndexSection(xs) + RelationshipSection(fks) + [""];
  }

  /** Any failure gives `(None, None)`; on success both texts are there:
      never a partial pair. */
  lemma NeverPartial(server: Server)
    ensures Metadata(server).0.Some? <==> Metadata(server).1.Some?
    ensures !server.connects ==> Metadata(server) == (None, None)
    ensures server.connects && server.showTables.Ok?
      && (exists i :: 0 <= i < |server.showTables.value|
            && TableOutput(server.showTables.value[i], server.table(server.showTables.value[i])).None?)
      ==> Metadata(server) == (None, None)
  {
    if server.connects && server.showTables.Ok? {
      var tables := server.showTables.value;
      if exists i :: 0 <= i < |tables| && TableOutput(tables[i], server.table(tables[i])).None? {
        var i :| 0 <= i < |tables| && TableOutput(tables[i], server.table(tables[i])).None?;
        assert tables[..i + 1][..i] == tables[..i];
        assert TablesOutput(server, tables[..i + 1]).None?;
        FailureSticks(server, tables, i + 1);
      }
    }
  }
}
