/** The database as the chat code sees it through a dictionary cursor:
    executing a statement yields rows or a driver error
    (`mysql.connector.Error`). Connections, cursors and the server are not
    modelled beyond that. */
module Driver {
  import opened Wrappers
  import opened QueryResult

  /** The outcome of `cursor.execute(query)` followed by `fetchall()`. */
  datatype Execution = Rows(rows: seq<Row>) | DriverError(message: string)

  /** A live `(connection, cursor)` pair, given by what it does with each
      statement. */
  datatype Database = Database(execute: string -> Execution)

  /** "⚠️ Please connect to the database first." */
  const ConnectFirst := "\U{26A0}\U{FE0F} Please connect to the database first."
  /** "❌ Error executing query: " */
  const ExecutionErrorPrefix := "\U{274C} Error executing query: "

  /** `f"{ddl}"` in the prompt: the DDL text, or `None` when the schema
      fetch failed. */
  function SchemaInfo(ddl: Option<string>): string {
    match ddl
    case Some(d) => d
    case None => "None"
  }
}
