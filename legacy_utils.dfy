/** `utils.py` at the top of the repository: the earlier version of the chat
    helpers. It keeps no conversation history; `run_query` returns the text
    to show (the formatted table, the connect-first notice or the driver
    error) and `get_llm_response` puts the statement in a ```sql fence
    above it. The session's database handle, the schema fetch and the
    language model are parameters. */
module LegacyUtils {
  import opened Wrappers
  import opened Text
  import opened QueryResult
  import opened Driver
  import SqlExtract

  /** The prompt of this version: the schema text is written into the
      template, the question is its one placeholder. */
  datatype Prompt = Prompt(schemaInfo: string, question: string)

  /** `run_query(query)` against `st.session_state.db`. Its three outcomes
      are told apart by their first character: a table or the no-results
      notice, the connect-first warning, or the driver error, which carries
      the driver's message after its prefix. */
  function RunQuery(db: Option<Database>, query: string): (r: string)
    ensures r != []
    ensures r[0] == '\U{26A0}' <==> db.None?
    ensures r[0] == '\U{274C}' <==> db.Some? && db.value.execute(query).DriverError?
    ensures db.Some? && db.value.execute(query).DriverError? ==>
      r == ExecutionErrorPrefix + db.value.execute(query).message
  {
    match db
    case None => ConnectFirst
    case Some(d) =>
      match d.execute(query)
      case Rows(rows) => TableStart(rows); Table(rows)
      case DriverError(m) => ExecutionErrorPrefix + m
  }

  /** A formatted result starts with the bold title, or with the
      information sign when there are no rows. */
  lemma TableStart(rows: seq<Row>)
    ensures Table(rows) != []
    ensures Table(rows)[0] == if rows == [] then '\U{2139}' else '*'
  {
    if rows != [] {
      assert Table(rows) == Preamble(Keys(rows[0])) + Unlines(RowLines(rows));
      assert Table(rows)[0] == Title[0];
    }
  }

  /** The no-results notice is shown exactly when the query ran and
      returned no rows: neither a table, nor the connect-first warning,
      nor a driver error reads like it. */
  lemma EmptyResultNotice(db: Option<Database>, query: string)
    ensures RunQuery(db, query) == NoResults <==> db.Some? && db.value.execute(query) == Rows([])
  {
    if db.Some? && db.value.execute(query).Rows? && db.value.execute(query).rows != [] {
      TableStart(db.value.execute(query).rows);
      assert RunQuery(db, query)[0] != NoResults[0];
    } else if RunQuery(db, query) == NoResults {
      assert RunQuery(db, query)[0] == '\U{2139}';
    }
  }

  /** `get_llm_response(question)`: `ddl` is what the schema fetch returned
      and `llm` the model's reply. The answer opens with the extracted
      statement in a ```sql fence, the statement that ran, and goes on with
      `run_query`'s text, which is never empty. */
  function GetLlmResponse(question: string, ddl: Option<string>, llm: Prompt -> string, db: Option<Database>): (r: string)
    ensures var sql := SqlExtract.ExtractSql(Strip(llm(Prompt(SchemaInfo(ddl), question))));
      && SqlExtract.Fenced(sql) <= r
      && |r| > |SqlExtract.Fenced(sql)|
  {
    var schemaInfo := SchemaInfo(ddl);
    var response := llm(Prompt(schemaInfo, question));
    var sql := SqlExtract.ExtractSql(Strip(response));
    SqlExtract.Fenced(sql) + RunQuery(db, sql)
  }

  /** The statement shown in the answer is the one that ran, and
      `extract_sql_query` reads it back from the answer, as long as it
      holds no ``` and the answer no `</think>`. */
  lemma AnswerShowsStatement(question: string, ddl: Option<string>, llm: Prompt -> string, db: Option<Database>)
    requires var sql := SqlExtract.ExtractSql(Strip(llm(Prompt(SchemaInfo(ddl), question))));
      forall k :: !MatchAt(sql, k, SqlExtract.Fence, false)
    requires forall k :: !MatchAt(GetLlmResponse(question, ddl, llm, db), k, SqlExtract.ThinkEnd, false)
    ensures var sql := SqlExtract.ExtractSql(Strip(llm(Prompt(SchemaInfo(ddl), question))));
      SqlExtract.ExtractSql(GetLlmResponse(question, ddl, llm, db)) == sql
  {
    var sql := SqlExtract.ExtractSql(Strip(llm(Prompt(SchemaInfo(ddl), question))));
    var answer := GetLlmResponse(question, ddl, llm, db);
    var rest := RunQuery(db, sql);
    assert answer == SqlExtract.Fenced(sql) + rest;
    assert Trimmed(sql);
    SqlExtract.FencedRoundTrip(sql, rest);
  }
}
