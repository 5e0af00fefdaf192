/** What the entries of the MySQL log tell of the packets of a serial session
    (services/db-proxy/mysql/connection.go, lines 155 to 316). */
module MySqlLog {
  import opened Bytes
  import opened Options
  import opened MySqlWire
  import opened MySqlRows
  import opened MySqlSession

  // ---------- what an entry tells of an answer ----------

  /** Answered with OK, or with a result set that an EOF closed. */
  predicate Succeeds(r: Response) {
    r.Ok? || (r.ResultSet? && IsEOF(r.last))
  }

  /** The ERR packet of an answer, wherever it stands. */
  function ErrPacket(r: Response): Option<bytes> {
    if r.Err? then Some(r.packet) else if r.ResultSet? && !IsEOF(r.last) then Some(r.last) else None
  }

  /** The OK's count, or the number of rows. */
  function RowCount(r: Response): int {
    if r.Ok? then OKAffectedRows(r.packet) else if Succeeds(r) then |r.rows| else 0
  }

  /** The rows of a result set that an EOF closed. */
  function RowsSent(r: Response): seq<bytes> {
    if r.ResultSet? && IsEOF(r.last) then r.rows else []
  }

  /** The row the log should show for a row packet of an answer to `command`. */
  function ShownPacket(isFloat: FloatSyntax, command: bytes, cols: seq<ColumnDef>, row: bytes): Row {
    if command != [] && command[0] == COM_STMT_EXECUTE then NamedRow(cols, BinaryRow(isFloat, row, cols))
    else NamedRow(cols, CoerceAll(isFloat, cols, TextRow(row, |cols|)))
  }

  ghost predicate Tells(isFloat: FloatSyntax, sql: bytes, e: Exchange, entry: LogEntry) {
    var r := e.response;
    && entry.query == sql
    && (entry.success <==> Succeeds(r))
    && (entry.rowsAffected.Some? <==> RowCount(r) > 0)
    && (entry.rowsAffected.Some? ==> entry.rowsAffected.value == RowCount(r))
    && entry.error == (if ErrPacket(r).Some? then ErrorMessage(ErrPacket(r).value) else [])
    && |entry.data| == |RowsSent(r)|
    && forall i :: 0 <= i < |entry.data| ==>
         entry.data[i] == ShownPacket(isFloat, e.command, ColumnsOf(r.columns), RowsSent(r)[i])
  }

  /** The exchanges whose command has SQL, successful PREPAREs excepted. */
  predicate IsTold(cache: map<nat, bytes>, e: Exchange) {
    SqlOf(e.command, cache).Some? && !e.response.PrepareOk?
  }

  lemma EntryTells(isFloat: FloatSyntax, sql: bytes, e: Exchange)
    requires ValidExchange(e) && !e.response.PrepareOk? && !e.response.Silent?
    ensures |EntryFor(isFloat, e.command, sql, e.response)| == 1
    ensures Tells(isFloat, sql, e, EntryFor(isFloat, e.command, sql, e.response)[0])
  {
    hide OKAffectedRows, ErrorMessage, ColumnsOf, NamedRow, BinaryRow, CoerceAll, TextRow, IsResultSet, ReadLenEncInt;
  }

  /** After any valid exchange on an idle machine: one new entry that tells the answer, or none. */
  lemma ExchangeIsTold(isFloat: FloatSyntax, st: State, e: Exchange)
    requires Idle(st) && ValidExchange(e)
    ensures var after := ReceiveAll(true, isFloat, Send(st, e.command), Packets(e.response));
            && Idle(after) && after.stmtCache == CacheAfter(st.stmtCache, e)
            && if IsTold(st.stmtCache, e) then
                 && |after.log| == |st.log| + 1 && after.log[..|st.log|] == st.log
                 && Tells(isFloat, SqlOf(e.command, st.stmtCache).value, e, after.log[|st.log|])
               else after.log == st.log
  {
    hide ReceiveAll, Tells, FollowUps, IsOK, IsERR, IsResultSet, ReadLenEncInt, Idle, CacheAfter;
    ExchangeIsLogged(isFloat, st, e);
    if IsTold(st.stmtCache, e) {
      hide EntryFor;
      EntryTells(isFloat, SqlOf(e.command, st.stmtCache).value, e);
    }
  }

  // ---------- whole sessions ----------

  /** The told exchanges of a session, each with its SQL, in order. */
  function Told(cache: map<nat, bytes>, session: seq<Exchange>): seq<(bytes, Exchange)>
    requires forall i :: 0 <= i < |session| ==> ValidExchange(session[i])
    decreases |session|
  {
    if session == [] then []
    else
      var e := session[0];
      (if IsTold(cache, e) then [(SqlOf(e.command, cache).value, e)] else []) + Told(CacheAfter(cache, e), session[1..])
  }

  /** The k-th entry tells the k-th exchange. */
  ghost predicate AllTell(isFloat: FloatSyntax, told: seq<(bytes, Exchange)>, entries: seq<LogEntry>) {
    |entries| == |told| && forall k :: 0 <= k < |told| ==> Tells(isFloat, told[k].0, told[k].1, entries[k])
  }

  /** For every serial session: one new entry per told exchange, in order, each telling its answer. */
  lemma {:induction false} SessionIsTold(isFloat: FloatSyntax, st: State, session: seq<Exchange>)
    requires Idle(st)
    requires forall i :: 0 <= i < |session| ==> ValidExchange(session[i])
    ensures var log := Run(true, isFloat, st, session).log;
            st.log <= log && AllTell(isFloat, Told(st.stmtCache, session), log[|st.log|..])
    decreases |session|
  {
    hide ReceiveAll, Send, Packets, Tells, ValidExchange, CacheAfter, Idle, IsTold;
    if session != [] {
      ExchangeIsTold(isFloat, st, session[0]);
      var next := ReceiveAll(true, isFloat, Send(st, session[0].command), Packets(session[0].response));
      SessionIsTold(isFloat, next, session[1..]);
      var log := Run(true, isFloat, st, session).log;
      assert next.log <= log && log[|st.log|..] == next.log[|st.log|..] + log[|next.log|..];
    }
  }
}
