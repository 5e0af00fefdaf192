/** The MySQL observer: a machine fed one packet at a time, and the grammar of
    serial sessions it agrees with (services/db-proxy/mysql/connection.go). */
module MySqlSession {
  import opened Bytes
  import opened Options
  import opened MySqlWire
  import opened MySqlRows

  datatype LogEntry = LogEntry(query: bytes, success: bool, rowsAffected: Option<int>, error: bytes, data: seq<Row>)

  datatype State = State(
    stmtCache: map<nat, bytes>,
    pending: seq<bytes>,
    lastCommand: byte,
    skip: nat,
    inResultSet: bool,
    binary: bool,
    columnCount: nat,
    columns: seq<ColumnDef>,
    eofAfterCols: bool,
    rows: seq<Row>,
    log: seq<LogEntry>)

  const START := State(map[], [], 0, 0, false, false, 0, [], false, [], [])

  function Entry(sql: bytes, success: bool, rowsAffected: int, error: bytes, data: seq<Row>): LogEntry {
    LogEntry(sql, success, if rowsAffected > 0 then Some(rowsAffected) else None, error, data)
  }

  // ---------- one packet ----------

  function StmtId(p: bytes): nat { if |p| < 5 then 0 else FromLE(p[1..5]) }

  /** The SQL a client packet puts at the back of the pending queue, if any. */
  function SqlOf(p: bytes, cache: map<nat, bytes>): Option<bytes> {
    if p == [] then None
    else if p[0] == COM_QUERY || p[0] == COM_STMT_PREPARE then (if |p| < 2 then None else Some(p[1..]))
    else if p[0] == COM_STMT_EXECUTE && StmtId(p) in cache then Some(cache[StmtId(p)])
    else None
  }

  function Send(st: State, p: bytes): State {
    var cmd := if p != [] && p[0] in {COM_QUERY, COM_STMT_PREPARE, COM_STMT_EXECUTE} then p[0] else st.lastCommand;
    match SqlOf(p, st.stmtCache)
    case None => st.(lastCommand := cmd)
    case Some(sql) => st.(lastCommand := cmd, pending := st.pending + [sql])
  }

  /** Pop the oldest pending query and log it; without a logger nothing is popped. */
  function Complete(hasLogger: bool, st: State, success: bool, rowsAffected: int, error: bytes, data: seq<Row>): State {
    if !hasLogger || st.pending == [] then st
    else st.(pending := st.pending[1..],
             log := st.log + [Entry(st.pending[0], success, rowsAffected, error, data)])
  }

  predicate IsPrepareOK(p: bytes) { |p| >= 10 && p[0] == OK_HEADER }

  function PreparedId(p: bytes): nat
    requires IsPrepareOK(p)
  {
    FromLE(p[1..5])
  }

  /** Parameter and column definitions after a PREPARE_OK, each group closed by an EOF. */
  function FollowUps(p: bytes): nat
    requires IsPrepareOK(p)
  {
    var cols, params := FromLE(p[5..7]), FromLE(p[7..9]);
    params + cols + (if params > 0 then 1 else 0) + (if cols > 0 then 1 else 0)
  }

  function Receive(hasLogger: bool, isFloat: FloatSyntax, st: State, p: bytes): State {
    if st.skip > 0 then st.(skip := st.skip - 1)
    else if st.inResultSet then ReceiveInResultSet(hasLogger, isFloat, st, p)
    else if p == [] then st
    else if st.lastCommand == COM_STMT_PREPARE && IsPrepareOK(p) && st.pending != [] && PreparedId(p) > 0 then
      st.(pending := st.pending[1..], stmtCache := st.stmtCache[PreparedId(p) := st.pending[0]],
          skip := FollowUps(p), lastCommand := 0)
    else if IsOK(p) then Complete(hasLogger, st, true, OKAffectedRows(p), [], [])
    else if IsERR(p) then Complete(hasLogger, st, false, 0, ErrorMessage(p), [])
    else if IsResultSet(p) then
      st.(inResultSet := true, binary := st.lastCommand == COM_STMT_EXECUTE, columnCount := ReadLenEncInt(p).0,
          columns := [], eofAfterCols := false, rows := [])
    else st
  }

  function ReceiveInResultSet(hasLogger: bool, isFloat: FloatSyntax, st: State, p: bytes): State {
    var closed := st.(inResultSet := false, columns := [], rows := []);
    if |st.columns| < st.columnCount then st.(columns := st.columns + [ColumnOf(p)])
    else if !st.eofAfterCols then st.(eofAfterCols := IsEOF(p))
    else if IsEOF(p) then Complete(hasLogger, closed, true, |st.rows|, [], st.rows)
    else if IsERR(p) then Complete(hasLogger, closed, false, 0, ErrorMessage(p), [])
    else st.(rows := st.rows + [RowOf(isFloat, st.binary, st.columns, p)])
  }

  class ProxyConnection {
    const hasLogger: bool
    const isFloat: FloatSyntax
    var stmtCache: map<nat, bytes>
    var pending: seq<bytes>
    var lastCommand: byte
    var prepareSkipRemaining: nat
    var columns: seq<ColumnDef>
    var resultRows: seq<Row>
    var inResultSet: bool
    var binaryResultSet: bool
    var columnCount: nat
    var columnsRead: nat
    var eofAfterCols: bool
    var log: seq<LogEntry>

    /** The columns read so far are the ones kept, while a result set is open. */
    ghost predicate Valid()
      reads this
    {
      inResultSet ==> columnsRead == |columns|
    }

    ghost function View(): State
      reads this
    {
      State(stmtCache, pending, lastCommand, prepareSkipRemaining, inResultSet, binaryResultSet, columnCount,
            columns, eofAfterCols, resultRows, log)
    }

    constructor (hasLogger: bool, isFloat: FloatSyntax)
      ensures Valid() && View() == START
      ensures this.hasLogger == hasLogger && this.isFloat == isFloat
    {
      this.hasLogger, this.isFloat := hasLogger, isFloat;
      stmtCache, pending, lastCommand, prepareSkipRemaining := map[], [], 0, 0;
      columns, resultRows, inResultSet, binaryResultSet := [], [], false, false;
      columnCount, columnsRead, eofAfterCols, log := 0, 0, false, [];
    }

    /** The client relay's bookkeeping for one packet. */
    method ProcessClientPacket(p: bytes)
      requires Valid()
      modifies this
      ensures Valid() && View() == Send(old(View()), p)
    {
      if p != [] {
        if p[0] == COM_QUERY || p[0] == COM_STMT_PREPARE {
          lastCommand := p[0];
          if |p| >= 2 {
            pending := pending + [p[1..]];
          }
        } else if p[0] == COM_STMT_EXECUTE {
          lastCommand := COM_STMT_EXECUTE;
          if StmtId(p) in stmtCache {
            pending := pending + [stmtCache[StmtId(p)]];
          }
        }
      }
    }

    method ProcessServerPacket(p: bytes)
      requires Valid()
      modifies this
      ensures Valid() && View() == Receive(hasLogger, isFloat, old(View()), p)
    {
      hide ReadLenEncInt, OKAffectedRows, ErrorMessage, FollowUps, PreparedId, IsPrepareOK, IsOK, IsERR, IsResultSet,
        Complete, ReceiveInResultSet;
      if prepareSkipRemaining > 0 {
        prepareSkipRemaining := prepareSkipRemaining - 1;
        return;
      }
      if inResultSet {
        ProcessResultSetPacket(p);
        return;
      }
      if p == [] {
        return;
      }
      if lastCommand == COM_STMT_PREPARE && IsPrepareOK(p) && |pending| > 0 {
        var stmtId := PreparedId(p);
        if stmtId > 0 {
          stmtCache := stmtCache[stmtId := pending[0]];
          pending := pending[1..];
          prepareSkipRemaining := FollowUps(p);
          lastCommand := 0;
          return;
        }
      }
      if IsOK(p) {
        CompleteQuery(true, OKAffectedRows(p), [], []);
        return;
      }
      if IsERR(p) {
        CompleteQuery(false, 0, ErrorMessage(p), []);
        return;
      }
      if IsResultSet(p) {
        inResultSet := true;
        binaryResultSet := lastCommand == COM_STMT_EXECUTE;
        columnCount := ReadLenEncInt(p).0;
        columnsRead := 0;
        eofAfterCols := false;
        columns := [];
        resultRows := [];
      }
    }

    method ProcessResultSetPacket(p: bytes)
      requires Valid() && inResultSet
      modifies this
      ensures Valid() && View() == ReceiveInResultSet(hasLogger, isFloat, old(View()), p)
    {
      if columnsRead < columnCount {
        var col := ParseColumnDef(p);
        columns := columns + [col];
        columnsRead := columnsRead + 1;
        return;
      }
      if !eofAfterCols {
        if IsEOF(p) {
          eofAfterCols := true;
        }
        return;
      }
      if IsEOF(p) {
        var data := resultRows;
        inResultSet, columns, resultRows := false, [], [];
        CompleteQuery(true, |data|, [], data);
        return;
      }
      if IsERR(p) {
        inResultSet, columns, resultRows := false, [], [];
        CompleteQuery(false, 0, ErrorMessage(p), []);
        return;
      }
      var row := ParseRow(isFloat, binaryResultSet, columns, p);
      resultRows := resultRows + [row];
    }

    method CompleteQuery(success: bool, rowsAffected: int, errMsg: bytes, data: seq<Row>)
      requires Valid()
      modifies this`pending, this`log
      ensures Valid() && View() == Complete(hasLogger, old(View()), success, rowsAffected, errMsg, data)
    {
      if !hasLogger || |pending| == 0 {
        return;
      }
      log := log + [Entry(pending[0], success, rowsAffected, errMsg, data)];
      pending := pending[1..];
    }
  }

  // ---------- sessions ----------

  /** What the server sends for one command. */
  datatype Response =
    | Silent
    | Ok(packet: bytes)
    | Err(packet: bytes)
    | PrepareOk(packet: bytes, followUps: seq<bytes>)
    | ResultSet(header: bytes, columns: seq<bytes>, eof: bytes, rows: seq<bytes>, last: bytes)

  function Packets(r: Response): seq<bytes> {
    match r
    case Silent => []
    case Ok(p) => [p]
    case Err(p) => [p]
    case PrepareOk(p, followUps) => [p] + followUps
    case ResultSet(h, columns, eof, rows, last) => [h] + columns + [eof] + rows + [last]
  }

  /** A client command packet and its response. */
  datatype Exchange = Exchange(command: bytes, response: Response)

  predicate IsPrepare(command: bytes) { |command| >= 2 && command[0] == COM_STMT_PREPARE }

  predicate Logged(command: bytes) { command != [] && command[0] in {COM_QUERY, COM_STMT_PREPARE, COM_STMT_EXECUTE} }

  /** The response grammar. Statement ids start at 1; commands outside the three the observer
      names may be answered with OK, ERR, a result set, or nothing. */
  predicate ValidExchange(e: Exchange) {
    match e.response
    case Silent => !Logged(e.command)
    case Ok(p) => IsOK(p) && !IsPrepare(e.command)
    case Err(p) => IsERR(p)
    case PrepareOk(p, followUps) =>
      IsPrepare(e.command) && IsPrepareOK(p) && PreparedId(p) > 0 && |followUps| == FollowUps(p)
    case ResultSet(h, columns, eof, rows, last) =>
      !IsPrepare(e.command) && IsResultSet(h) && ReadLenEncInt(h).0 == |columns| && IsEOF(eof) &&
      (forall i :: 0 <= i < |rows| ==> !IsEOF(rows[i]) && !IsERR(rows[i])) && (IsEOF(last) || IsERR(last))
  }

  function ColumnsOf(columns: seq<bytes>): (cols: seq<ColumnDef>)
    ensures |cols| == |columns|
  {
    seq(|columns|, i requires 0 <= i < |columns| => ColumnOf(columns[i]))
  }

  function RowsOf(isFloat: FloatSyntax, binary: bool, cols: seq<ColumnDef>, rows: seq<bytes>): (s: seq<Row>)
    ensures |s| == |rows|
  {
    seq(|rows|, i requires 0 <= i < |rows| => RowOf(isFloat, binary, cols, rows[i]))
  }

  /** The one log entry an answered statement is worth. */
  function EntryFor(isFloat: FloatSyntax, command: bytes, sql: bytes, r: Response): seq<LogEntry> {
    match r
    case Silent => []
    case PrepareOk(_, _) => []
    case Ok(p) => [Entry(sql, true, OKAffectedRows(p), [], [])]
    case Err(p) => [Entry(sql, false, 0, ErrorMessage(p), [])]
    case ResultSet(_, columns, _, rows, last) =>
      if IsEOF(last) then
        var data := RowsOf(isFloat, command != [] && command[0] == COM_STMT_EXECUTE, ColumnsOf(columns), rows);
        [Entry(sql, true, |rows|, [], data)]
      else [Entry(sql, false, 0, ErrorMessage(last), [])]
  }

  /** The statements known after an exchange. */
  function CacheAfter(cache: map<nat, bytes>, e: Exchange): map<nat, bytes>
    requires ValidExchange(e)
  {
    if e.response.PrepareOk? then cache[PreparedId(e.response.packet) := e.command[1..]] else cache
  }

  /** What a session should log: each COM_QUERY, each failed PREPARE and each EXECUTE of a known
      statement once, in order, under the right SQL; nothing else. */
  function SessionLog(isFloat: FloatSyntax, cache: map<nat, bytes>, session: seq<Exchange>): seq<LogEntry>
    requires forall i :: 0 <= i < |session| ==> ValidExchange(session[i])
    decreases |session|
  {
    if session == [] then []
    else
      var e := session[0];
      var sql := SqlOf(e.command, cache);
      (if sql == None then [] else EntryFor(isFloat, e.command, sql.value, e.response)) +
      SessionLog(isFloat, CacheAfter(cache, e), session[1..])
  }

  function SessionCache(cache: map<nat, bytes>, session: seq<Exchange>): map<nat, bytes>
    requires forall i :: 0 <= i < |session| ==> ValidExchange(session[i])
    decreases |session|
  {
    if session == [] then cache else SessionCache(CacheAfter(cache, session[0]), session[1..])
  }

  function ReceiveAll(hasLogger: bool, isFloat: FloatSyntax, st: State, packets: seq<bytes>): State
    decreases |packets|
  {
    if packets == [] then st
    else ReceiveAll(hasLogger, isFloat, Receive(hasLogger, isFloat, st, packets[0]), packets[1..])
  }

  function Run(hasLogger: bool, isFloat: FloatSyntax, st: State, session: seq<Exchange>): State
    decreases |session|
  {
    if session == [] then st
    else Run(hasLogger, isFloat,
             ReceiveAll(hasLogger, isFloat, Send(st, session[0].command), Packets(session[0].response)), session[1..])
  }

  /** Between two exchanges nothing is pending, nothing is being skipped, no result set is open. */
  predicate Idle(st: State) {
    st.pending == [] && st.skip == 0 && !st.inResultSet
  }

  // ---------- proof ----------

  lemma {:induction false} ReceiveAllConcat(hasLogger: bool, isFloat: FloatSyntax, st: State, a: seq<bytes>, b: seq<bytes>)
    ensures ReceiveAll(hasLogger, isFloat, st, a + b)
         == ReceiveAll(hasLogger, isFloat, ReceiveAll(hasLogger, isFloat, st, a), b)
    decreases |a|
  {
    hide Receive;
    if a == [] {
      assert a + b == b;
    } else {
      assert (a + b)[1..] == a[1..] + b;
      ReceiveAllConcat(hasLogger, isFloat, Receive(hasLogger, isFloat, st, a[0]), a[1..], b);
    }
  }

  lemma {:induction false} SkipsFollowUps(hasLogger: bool, isFloat: FloatSyntax, st: State, packets: seq<bytes>)
    requires st.skip == |packets|
    ensures ReceiveAll(hasLogger, isFloat, st, packets) == st.(skip := 0)
    decreases |packets|
  {
    hide ReceiveInResultSet, Complete, FollowUps;
    if packets != [] {
      SkipsFollowUps(hasLogger, isFloat, st.(skip := st.skip - 1), packets[1..]);
    }
  }

  lemma {:induction false} ReadsColumns(hasLogger: bool, isFloat: FloatSyntax, st: State, columns: seq<bytes>)
    requires st.skip == 0 && st.inResultSet && |st.columns| + |columns| == st.columnCount
    ensures ReceiveAll(hasLogger, isFloat, st, columns) == st.(columns := st.columns + ColumnsOf(columns))
    decreases |columns|
  {
    hide ColumnOf;
    if columns == [] {
      assert st.columns + ColumnsOf(columns) == st.columns;
    } else {
      var next := st.(columns := st.columns + [ColumnOf(columns[0])]);
      ReadsColumns(hasLogger, isFloat, next, columns[1..]);
      assert [ColumnOf(columns[0])] + ColumnsOf(columns[1..]) == ColumnsOf(columns);
      assert next.columns + ColumnsOf(columns[1..]) == st.columns + ColumnsOf(columns);
    }
  }

  lemma {:induction false} ReadsRows(hasLogger: bool, isFloat: FloatSyntax, st: State, rows: seq<bytes>)
    requires st.skip == 0 && st.inResultSet && |st.columns| == st.columnCount && st.eofAfterCols
    requires forall i :: 0 <= i < |rows| ==> !IsEOF(rows[i]) && !IsERR(rows[i])
    ensures ReceiveAll(hasLogger, isFloat, st, rows)
         == st.(rows := st.rows + RowsOf(isFloat, st.binary, st.columns, rows))
    decreases |rows|
  {
    hide RowOf, IsEOF, IsERR;
    var all := RowsOf(isFloat, st.binary, st.columns, rows);
    if rows == [] {
      assert st.rows + all == st.rows;
    } else {
      var next := st.(rows := st.rows + [RowOf(isFloat, st.binary, st.columns, rows[0])]);
      ReadsRows(hasLogger, isFloat, next, rows[1..]);
      assert [all[0]] + RowsOf(isFloat, st.binary, st.columns, rows[1..]) == all;
      assert next.rows + RowsOf(isFloat, st.binary, st.columns, rows[1..]) == st.rows + all;
    }
  }

  lemma OnePacket(hasLogger: bool, isFloat: FloatSyntax, st: State, p: bytes)
    ensures ReceiveAll(hasLogger, isFloat, st, [p]) == Receive(hasLogger, isFloat, st, p)
  {
    hide Receive;
    assert [p][1..] == [];
    var next := Receive(hasLogger, isFloat, st, p);
    assert ReceiveAll(hasLogger, isFloat, next, []) == next;
  }

  /** The state after the header, the columns and their EOF. */
  lemma OpensResultSet(hasLogger: bool, isFloat: FloatSyntax, st: State, h: bytes, columns: seq<bytes>, eof: bytes)
    requires st.skip == 0 && !st.inResultSet
    requires IsResultSet(h) && ReadLenEncInt(h).0 == |columns| && IsEOF(eof)
    ensures ReceiveAll(hasLogger, isFloat, st, [h] + columns + [eof])
         == st.(inResultSet := true, binary := st.lastCommand == COM_STMT_EXECUTE, columnCount := |columns|,
                columns := ColumnsOf(columns), eofAfterCols := true, rows := [])
  {
    var begun := Receive(hasLogger, isFloat, st, h);
    OnePacket(hasLogger, isFloat, st, h);
    ReadsColumns(hasLogger, isFloat, begun, columns);
    assert [] + ColumnsOf(columns) == ColumnsOf(columns);
    var withColumns := begun.(columns := ColumnsOf(columns));
    OnePacket(hasLogger, isFloat, withColumns, eof);
    hide ReceiveAll;
    ReceiveAllConcat(hasLogger, isFloat, st, [h], columns);
    ReceiveAllConcat(hasLogger, isFloat, st, [h] + columns, [eof]);
  }

  lemma ResultSetIsLogged(hasLogger: bool, isFloat: FloatSyntax, st: State, r: Response)
    requires st.skip == 0 && !st.inResultSet
    requires r.ResultSet? && ValidExchange(Exchange([], r))
    ensures var after := ReceiveAll(hasLogger, isFloat, st, Packets(r));
            var done := if IsEOF(r.last) then
              Complete(hasLogger, st, true, |r.rows|, [],
                       RowsOf(isFloat, st.lastCommand == COM_STMT_EXECUTE, ColumnsOf(r.columns), r.rows))
            else Complete(hasLogger, st, false, 0, ErrorMessage(r.last), []);
            after == done.(binary := after.binary, columnCount := after.columnCount, eofAfterCols := true,
                           columns := [], rows := [])
  {
    var ResultSet(h, columns, eof, rows, last) := r;
    OpensResultSet(hasLogger, isFloat, st, h, columns, eof);
    var begun := ReceiveAll(hasLogger, isFloat, st, [h] + columns + [eof]);
    ReadsRows(hasLogger, isFloat, begun, rows);
    var all := RowsOf(isFloat, begun.binary, begun.columns, rows);
    assert [] + all == all;
    var full := begun.(rows := all);
    OnePacket(hasLogger, isFloat, full, last);
    hide ReceiveAll;
    ReceiveAllConcat(hasLogger, isFloat, st, [h] + columns + [eof], rows);
    ReceiveAllConcat(hasLogger, isFloat, st, [h] + columns + [eof] + rows, [last]);
  }

  /** One exchange returns the machine to idle, updates the cache and logs exactly its entry. */
  ghost predicate Answered(isFloat: FloatSyntax, st: State, e: Exchange)
    requires ValidExchange(e)
  {
    var after := ReceiveAll(true, isFloat, Send(st, e.command), Packets(e.response));
    var sql := SqlOf(e.command, st.stmtCache);
    && Idle(after)
    && after.stmtCache == CacheAfter(st.stmtCache, e)
    && after.log == st.log + (if sql == None then [] else EntryFor(isFloat, e.command, sql.value, e.response))
  }

  lemma OnePacketIsLogged(isFloat: FloatSyntax, st: State, e: Exchange)
    requires Idle(st) && ValidExchange(e) && (e.response.Ok? || e.response.Err? || e.response.Silent?)
    ensures Answered(isFloat, st, e)
  {
    hide ReceiveInResultSet, FollowUps;
    if !e.response.Silent? {
      OnePacket(true, isFloat, Send(st, e.command), e.response.packet);
      hide ReceiveAll;
    }
  }

  lemma PrepareIsCached(isFloat: FloatSyntax, st: State, e: Exchange)
    requires Idle(st) && ValidExchange(e) && e.response.PrepareOk?
    ensures Answered(isFloat, st, e)
  {
    hide ReceiveInResultSet, Complete, FollowUps;
    var sent := Send(st, e.command);
    var PrepareOk(p, followUps) := e.response;
    var cached := Receive(true, isFloat, sent, p);
    OnePacket(true, isFloat, sent, p);
    SkipsFollowUps(true, isFloat, cached, followUps);
    hide ReceiveAll;
    ReceiveAllConcat(true, isFloat, sent, [p], followUps);
  }

  lemma ResultSetIsAnswered(isFloat: FloatSyntax, st: State, e: Exchange)
    requires Idle(st) && ValidExchange(e) && e.response.ResultSet?
    ensures Answered(isFloat, st, e)
  {
    hide ReceiveAll, RowsOf, ColumnsOf, IsResultSet, IsERR, ErrorMessage;
    ResultSetIsLogged(true, isFloat, Send(st, e.command), e.response);
  }

  lemma ExchangeIsLogged(isFloat: FloatSyntax, st: State, e: Exchange)
    requires Idle(st) && ValidExchange(e)
    ensures Answered(isFloat, st, e)
  {
    match e.response
    case PrepareOk(_, _) => PrepareIsCached(isFloat, st, e);
    case ResultSet(_, _, _, _, _) => ResultSetIsAnswered(isFloat, st, e);
    case _ => OnePacketIsLogged(isFloat, st, e);
  }

  /** For every serial session the machine ends idle with exactly the log and the statement
      cache the grammar prescribes. */
  lemma {:induction false} SessionIsLogged(isFloat: FloatSyntax, st: State, session: seq<Exchange>)
    requires Idle(st)
    requires forall i :: 0 <= i < |session| ==> ValidExchange(session[i])
    ensures var after := Run(true, isFloat, st, session);
            && Idle(after)
            && after.stmtCache == SessionCache(st.stmtCache, session)
            && after.log == st.log + SessionLog(isFloat, st.stmtCache, session)
    decreases |session|
  {
    hide ReceiveAll, Send, Packets, EntryFor, SqlOf, ValidExchange, CacheAfter;
    if session != [] {
      ExchangeIsLogged(isFloat, st, session[0]);
      var next := ReceiveAll(true, isFloat, Send(st, session[0].command), Packets(session[0].response));
      SessionIsLogged(isFloat, next, session[1..]);
    }
  }

  // ---------- what the packets carry ----------

  /** Commands as a client writes them are read back: the SQL of COM_QUERY and COM_STMT_PREPARE,
      the cached SQL of COM_STMT_EXECUTE, nothing for any other command. */
  lemma CommandsAreRead(cache: map<nat, bytes>, sql: bytes, id: nat, cmd: byte, rest: bytes)
    requires sql != [] && id < 0x1_0000_0000
    ensures SqlOf([COM_QUERY] + sql, cache) == Some(sql)
    ensures SqlOf([COM_STMT_PREPARE] + sql, cache) == Some(sql)
    ensures SqlOf([COM_STMT_EXECUTE] + LE(id, 4) + rest, cache) == if id in cache then Some(cache[id]) else None
    ensures cmd !in {COM_QUERY, COM_STMT_PREPARE, COM_STMT_EXECUTE} ==> SqlOf([cmd] + rest, cache) == None
  {
    Pow256Values();
    LERoundTrip(id, 4);
    assert ([COM_QUERY] + sql)[1..] == sql;
    assert ([COM_STMT_PREPARE] + sql)[1..] == sql;
    assert ([COM_STMT_EXECUTE] + LE(id, 4) + rest)[1..5] == LE(id, 4);
  }

  /** A PREPARE_OK yields the statement id and the number of packets that follow it. */
  lemma PrepareOkIsRead(id: nat, cols: nat, params: nat, rest: bytes)
    requires 0 < id < 0x1_0000_0000 && cols < 0x1_0000 && params < 0x1_0000 && rest != []
    ensures var p := [OK_HEADER] + LE(id, 4) + LE(cols, 2) + LE(params, 2) + rest;
            && IsPrepareOK(p) && PreparedId(p) == id
            && FollowUps(p) == (if params == 0 then 0 else params + 1) + (if cols == 0 then 0 else cols + 1)
  {
    Pow256Values();
    LERoundTrip(id, 4);
    LERoundTrip(cols, 2);
    LERoundTrip(params, 2);
    var p := [OK_HEADER] + LE(id, 4) + LE(cols, 2) + LE(params, 2) + rest;
    assert p[1..5] == LE(id, 4) && p[5..7] == LE(cols, 2) && p[7..9] == LE(params, 2);
  }

  /** The affected rows of an OK packet and the message of an ERR packet, with and without the
      SQL state marker. */
  lemma OutcomesAreRead(n: nat, code: bytes, sqlState: bytes, message: bytes, rest: bytes)
    requires n < 0x8000_0000_0000_0000 && |code| == 2 && |sqlState| == 5
    ensures OKAffectedRows([OK_HEADER] + LenEncInt(n) + rest) == n
    ensures ErrorMessage([ERR_HEADER] + code + ['#' as int] + sqlState + message) == message
    ensures message != [] && message[0] != '#' as int ==> ErrorMessage([ERR_HEADER] + code + message) == message
  {
    LenEncIntRoundTrip(n, rest);
    assert ([OK_HEADER] + LenEncInt(n) + rest)[1..] == LenEncInt(n) + rest;
    var p := [ERR_HEADER] + code + ['#' as int] + sqlState + message;
    assert p[9..] == message;
    var q := [ERR_HEADER] + code + message;
    assert q[3..] == message;
  }

  /** A successful PREPARE is cached and not logged exactly when its statement id is not 0. */
  lemma PrepareOkIsSilentIff(isFloat: FloatSyntax, st: State, command: bytes, p: bytes)
    requires Idle(st) && IsPrepare(command) && IsPrepareOK(p)
    ensures var after := Receive(true, isFloat, Send(st, command), p);
            (after.log == st.log && after.stmtCache == st.stmtCache[PreparedId(p) := command[1..]])
            <==> PreparedId(p) > 0
  {
    hide ReceiveInResultSet, FollowUps;
  }

  /** A PREPARE_OK for statement 0 is taken for an OK: the statement is logged and not cached. */
  lemma StatementZeroIsLogged(isFloat: FloatSyntax, st: State, sql: bytes)
    requires Idle(st) && sql != []
    ensures var p := [OK_HEADER] + LE(0, 4) + LE(0, 2) + LE(0, 2) + [0, 0, 0];
            var after := Receive(true, isFloat, Send(st, [COM_STMT_PREPARE] + sql), p);
            after.log == st.log + [Entry(sql, true, 0, [], [])] && after.stmtCache == st.stmtCache
  {
    hide ReceiveInResultSet, FollowUps;
    Pow256Values();
    LERoundTrip(0, 4);
    var p := [OK_HEADER] + LE(0, 4) + LE(0, 2) + LE(0, 2) + [0, 0, 0];
    assert p[1..5] == LE(0, 4);
    assert p[1] == LE(0, 4)[0] == 0;
    assert p[1..][0] == 0;
    assert ([COM_STMT_PREPARE] + sql)[1..] == sql;
  }

  /** Some commands the observer does not name, COM_STATISTICS among them, are answered by one packet of
      text, others by column definitions and an EOF. The first packet of any answer leaves an idle machine
      idle if and only if it does not look like the header of a result set. */
  lemma LoneAnswerKeepsIdleIff(isFloat: FloatSyntax, st: State, command: bytes, p: bytes)
    requires Idle(st) && !Logged(command)
    ensures Idle(Receive(true, isFloat, Send(st, command), p)) <==> !IsResultSet(p)
  {
    hide ReceiveInResultSet, FollowUps, ReadLenEncInt;
  }

  const COM_STATISTICS: byte := 0x09

  /** The answer to COM_STATISTICS, which begins with "U", leaves the machine inside a result set of 85
      columns, and the answer to the next query is taken for the first of them. */
  lemma StatisticsOpenAResultSet(isFloat: FloatSyntax, st: State, text: bytes, sql: bytes, ok: bytes)
    requires Idle(st) && text != [] && text[0] == 'U' as int && sql != [] && IsOK(ok)
    ensures var open_ := Receive(true, isFloat, Send(st, [COM_STATISTICS]), text);
            var next := Receive(true, isFloat, Send(open_, [COM_QUERY] + sql), ok);
            && open_.inResultSet && open_.columnCount == 85
            && next.inResultSet && next.log == st.log && next.columns == [ColumnOf(ok)]
  {
    hide FollowUps, ColumnOf;
    assert ([COM_QUERY] + sql)[1..] == sql;
  }

  /** A non-empty text row, or any binary row, is never mistaken for the EOF or ERR that ends the rows. */
  lemma RowsAreNotTerminators(values: seq<Option<bytes>>, cols: seq<Column>, cells: seq<Cell>)
    requires values != [] && Encodable(values) && ValidRow(cols, cells)
    ensures !IsEOF(EncodeTextRow(values)) && !IsERR(EncodeTextRow(values))
    ensures !IsEOF(EncodeBinaryRow(cols, cells)) && !IsERR(EncodeBinaryRow(cols, cells))
  {
  }
}
