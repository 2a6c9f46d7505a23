/** `src/utils.py`: the chat session behind the Streamlit page. Its session
    state holds the database handle and the conversation history; a
    question is turned into SQL by the language model, run, recorded in
    the history as a user turn and an assistant turn, and answered with the
    statement and its result table. The session state is a class here, and
    the language model and the schema fetch are parameters. */
module ChatSession {
  import opened Wrappers
  import opened Text
  import opened QueryResult
  import opened Driver
  import SqlExtract

  /** One entry of `conversation_history`: `{"role": …, "content": …}`. */
  datatype Turn = Turn(role: string, content: string)

  /** The message objects `get_llm_response` builds from the history. */
  datatype Message = HumanMessage(content: string) | AiMessage(content: string)

  /** The three values the prompt template is filled with. */
  datatype Prompt = Prompt(schemaInfo: string, history: string, question: string)

  const User := "user"
  const Assistant := "assistant"
  /** The prompt shows `conversation_history[-4:]`. */
  const HistoryWindow := 4
  /** The message list is built from `conversation_history[-5:]`. */
  const ContextWindow := 5
  /** "❌ Error: " */
  const ErrorMarker := "\U{274C} Error: "

  /** Python's `h[-n:]`: the last `n` entries, or all of them. */
  function LastN<T>(h: seq<T>, n: nat): (r: seq<T>)
    ensures |r| == if |h| < n then |h| else n
    ensures r == h[|h| - |r|..]
  {
    if |h| <= n then h else h[|h| - n..]
  }

  function TurnLine(t: Turn): string {
    t.role + ": " + t.content
  }

  /** The `history` value of the prompt: `role: content` lines for the
      last four turns, joined by newlines. */
  function HistoryText(h: seq<Turn>): string {
    var w := LastN(h, HistoryWindow);
    Join("\n", seq(|w|, i requires 0 <= i < |w| => TurnLine(w[i])))
  }

  /** Turns older than the last four never reach the prompt. */
  lemma HistoryUsesLastFour(older: seq<Turn>, recent: seq<Turn>)
    requires |recent| >= HistoryWindow
    ensures HistoryText(older + recent) == HistoryText(recent)
  {
    var h := older + recent;
    assert LastN(h, HistoryWindow) == LastN(recent, HistoryWindow) by {
      assert h[|h| - HistoryWindow..] == recent[|recent| - HistoryWindow..];
    }
  }

  /** `context_messages`: with `maintain_context` and a non-empty history,
      one message per entry of the last five, a human message exactly for
      a user entry. The list is built and never used afterwards. */
  function ContextMessages(h: seq<Turn>, maintainContext: bool): (r: seq<Message>)
    ensures |r| <= ContextWindow
    ensures !maintainContext ==> r == []
    ensures maintainContext ==> |r| == |LastN(h, ContextWindow)|
    ensures forall i :: 0 <= i < |r| ==>
      && r[i].content == LastN(h, ContextWindow)[i].content
      && (r[i].HumanMessage? <==> LastN(h, ContextWindow)[i].role == User)
  {
    if !maintainContext || h == [] then []
    else
      var w := LastN(h, ContextWindow);
      seq(|w|, i requires 0 <= i < |w| =>
        if w[i].role == User then HumanMessage(w[i].content) else AiMessage(w[i].content))
  }

  /** `f"{error}"` */
  function ErrorText(error: Option<string>): string {
    match error
    case Some(e) => e
    case None => "None"
  }

  /** Python's `repr` of a list of row dictionaries. */
  function RowsRepr(rows: seq<Row>): string {
    "[" + Join(", ", seq(|rows|, i requires 0 <= i < |rows| => DictRepr(rows[i]))) + "]"
  }

  function DictRepr(row: Row): string {
    "{" + Join(", ", seq(|row|, i requires 0 <= i < |row| => "'" + row[i].0 + "': " + row[i].1.repr)) + "}"
  }

  /** `query_result if query_result else error`: an empty result list is
      falsy too, so it shows the error, `None`. */
  function ResultText(rows: Option<seq<Row>>, error: Option<string>): string {
    if rows.Some? && rows.value != [] then RowsRepr(rows.value) else ErrorText(error)
  }

  /** The content of the assistant turn. */
  function AssistantContent(sql: string, rows: Option<seq<Row>>, error: Option<string>): string {
    "SQL Query: " + sql + "\n\nResult: " + ResultText(rows, error)
  }

  /** The two entries one question adds to the history. */
  function Exchange(question: string, sql: string, rows: Option<seq<Row>>, error: Option<string>): seq<Turn> {
    [Turn(User, question), Turn(Assistant, AssistantContent(sql, rows, error))]
  }

  /** The text `get_llm_response` returns. */
  function Answer(sql: string, rows: Option<seq<Row>>, error: Option<string>): string {
    if error.Some? then SqlExtract.Fenced(sql) + ErrorMarker + error.value
    else SqlExtract.Fenced(sql) + Table(rows.GetOr([]))
  }

  /** Entries alternate user, assistant, user, …, and come in pairs. */
  ghost predicate Alternating(h: seq<Turn>) {
    && |h| % 2 == 0
    && forall i :: 0 <= i < |h| ==> h[i].role == if i % 2 == 0 then User else Assistant
  }

  /** In an alternating history the prompt's window starts with a user
      turn and alternates: it shows whole exchanges only. */
  lemma PromptWindowStartsWithUser(h: seq<Turn>)
    requires Alternating(h)
    ensures var w := LastN(h, HistoryWindow);
      forall i :: 0 <= i < |w| ==> w[i].role == if i % 2 == 0 then User else Assistant
  {
    var w := LastN(h, HistoryWindow);
    var off := |h| - |w|;
    assert off == 0 || off == |h| - HistoryWindow;
    EvenOffset(|h|, off);
    forall i | 0 <= i < |w| ensures w[i].role == if i % 2 == 0 then User else Assistant {
      assert w[i] == h[off + i];
      EvenShift(off, i);
    }
  }

  /** Dropping an even number of entries from an even-length history. */
  lemma EvenOffset(n: nat, off: nat)
    requires n % 2 == 0 && (off == 0 || off == n - HistoryWindow)
    ensures off % 2 == 0
  {
  }

  lemma EvenShift(off: nat, i: nat)
    requires off % 2 == 0
    ensures (off + i) % 2 == i % 2
  {
  }

  class Session {
    /** `st.session_state.db`, or nothing when not connected. */
    var db: Option<Database>
    /** `st.session_state.conversation_history` */
    var history: seq<Turn>

    ghost predicate Valid()
      reads this
    {
      Alternating(history)
    }

    /** A fresh session: not connected, no history. */
    constructor ()
      ensures Valid() && db.None? && history == []
    {
      db := None;
      history := [];
    }

    /** `connect_database`: `attempt` is what the connection attempt gave,
        nothing when the driver refused it. A successful connection
        replaces the handle and empties the history; a failed one changes
        nothing. */
    method Connect(attempt: Option<Database>)
      requires Valid()
      modifies this
      ensures Valid()
      ensures attempt.Some? ==> db == attempt && history == []
      ensures attempt.None? ==> db == old(db) && history == old(history)
    {
      if attempt.Some? {
        db := attempt;
        history := [];
      }
    }

    /** `run_query`: rows and no error, or an error and no rows, never
        both; without a database it is the connect-first notice. */
    function RunQuery(query: string): (r: (Option<seq<Row>>, Option<string>))
      reads this
      ensures r.0.Some? != r.1.Some?
      ensures db.None? ==> r.1 == Some(ConnectFirst)
      ensures r.0.Some? ==> db.Some? && db.value.execute(query) == Rows(r.0.value)
      ensures db.Some? && db.value.execute(query).DriverError? ==>
        r.1 == Some(ExecutionErrorPrefix + db.value.execute(query).message)
    {
      match db
      case None => (None, Some(ConnectFirst))
      case Some(d) =>
        match d.execute(query)
        case Rows(rows) => (Some(rows), None)
        case DriverError(m) => (None, Some(ExecutionErrorPrefix + m))
    }

    /** `get_llm_response`: `ddl` is what the schema fetch returned and
        `llm` the language model's reply to a filled-in prompt. The prompt
        shows the last four turns; the question and the assistant's
        summary are then appended to the history, in that order. */
    method Respond(question: string, maintainContext: bool, ddl: Option<string>, llm: Prompt -> string)
      returns (answer: string)
      requires Valid()
      modifies this`history
      ensures Valid()
      ensures var sql := SqlExtract.ExtractSql(Strip(llm(Prompt(SchemaInfo(ddl), HistoryText(old(history)), question))));
        && history == old(history) + Exchange(question, sql, RunQuery(sql).0, RunQuery(sql).1)
        && answer == Answer(sql, RunQuery(sql).0, RunQuery(sql).1)
    {
      var schemaInfo := SchemaInfo(ddl);
      var contextMessages := ContextMessages(history, maintainContext);
      var prompt := Prompt(schemaInfo, HistoryText(history), question);
      var response := llm(prompt);
      var sql := SqlExtract.ExtractSql(Strip(response));
      var outcome := RunQuery(sql);
      var rows, error := outcome.0, outcome.1;
      ExchangeKeepsAlternation(history, question, sql, rows, error);
      history := history + Exchange(question, sql, rows, error);
      if error.Some? {
        answer := SqlExtract.Fenced(sql) + ErrorMarker + error.value;
      } else {
        var table := FormatQueryResult(rows.GetOr([]));
        answer := SqlExtract.Fenced(sql) + table;
      }
    }
  }

  /** Every question adds exactly two entries, the user's first. */
  lemma ExchangeKeepsAlternation(h: seq<Turn>, question: string, sql: string, rows: Option<seq<Row>>, error: Option<string>)
    requires Alternating(h)
    ensures Alternating(h + Exchange(question, sql, rows, error))
    ensures |h + Exchange(question, sql, rows, error)| == |h| + 2
  {
    var h' := h + Exchange(question, sql, rows, error);
    forall i | 0 <= i < |h'| ensures h'[i].role == if i % 2 == 0 then User else Assistant {
      if i >= |h| {
        assert i == |h| || i == |h| + 1;
      }
    }
  }
}
