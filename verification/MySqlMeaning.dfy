/** Sessions as clients and servers write them, and the log they mean
    (services/db-proxy/mysql/connection.go, lines 88 to 316). */
module MySqlMeaning {
  import opened Bytes
  import opened Options
  import opened MySqlWire
  import opened MySqlRows
  import opened MySqlSession
  import opened MySqlLog

  // ---------- commands and answers as they are written ----------

  datatype Command = Query(sql: bytes) | Prepare(sql: bytes) | Execute(id: nat, rest: bytes) | Other(code: byte, rest: bytes)

  datatype Failure = Failure(code: bytes, sqlState: bytes, message: bytes)

  /** A column as its definition packet carries it. */
  datatype Field = Field(qualifiers: seq<bytes>, orgName: bytes, fixed: bytes, rest: bytes, column: Column)

  datatype Rows = TextRows(texts: seq<seq<Option<bytes>>>) | BinaryRows(cells: seq<seq<Cell>>)

  /** `status` is what an EOF carries; a failure may end a result set in its place. */
  datatype Answer =
    | NoAnswer
    | Done(affected: nat, rest: bytes)
    | Failed(failure: Failure)
    | Prepared(id: nat, numCols: nat, numParams: nat, rest: bytes, followUps: seq<bytes>)
    | Table(fields: seq<Field>, rows: Rows, status: bytes, broken: Option<Failure>)

  datatype Turn = Turn(command: Command, answer: Answer)

  predicate ValidCommand(c: Command) {
    match c
    case Query(sql) => sql != []
    case Prepare(sql) => sql != []
    case Execute(id, _) => id < 0x1_0000_0000
    case Other(code, _) => code !in {COM_QUERY, COM_STMT_PREPARE, COM_STMT_EXECUTE}
  }

  predicate ValidFailure(f: Failure) { |f.code| == 2 && |f.sqlState| == 5 }

  predicate ValidField(f: Field) {
    && |f.qualifiers| == 4 && |f.fixed| == 6
    && forall s :: s in f.qualifiers + [f.column.def.name, f.orgName] ==> |s| < 0x100_0000
  }

  function ColumnsIn(fields: seq<Field>): (cols: seq<Column>)
    ensures |cols| == |fields|
  {
    seq(|fields|, i requires 0 <= i < |fields| => fields[i].column)
  }

  /** Binary rows for an executed statement, text rows for anything else. */
  ghost predicate ValidRows(c: Command, fields: seq<Field>, rows: Rows) {
    match rows
    case TextRows(texts) =>
      !c.Execute? && forall i :: 0 <= i < |texts| ==> |texts[i]| == |fields| && Encodable(texts[i])
    case BinaryRows(cells) =>
      c.Execute? && forall i :: 0 <= i < |cells| ==> ValidRow(ColumnsIn(fields), cells[i])
  }

  ghost predicate ValidTurn(t: Turn) {
    && ValidCommand(t.command)
    && match t.answer
       case NoAnswer => t.command.Other?
       case Done(affected, _) => !t.command.Prepare? && affected < 0x1_0000_0000_0000_0000
       case Failed(failure) => ValidFailure(failure)
       case Prepared(id, numCols, numParams, rest, followUps) =>
         && t.command.Prepare? && 0 < id < 0x1_0000_0000 && numCols < 0x1_0000 && numParams < 0x1_0000 && rest != []
         && |followUps| == (if numParams == 0 then 0 else numParams + 1) + (if numCols == 0 then 0 else numCols + 1)
       case Table(fields, rows, status, broken) =>
         && !t.command.Prepare? && 0 < |fields| < 0x100_0000 && |status| == 4
         && (forall i :: 0 <= i < |fields| ==> ValidField(fields[i])) && ValidRows(t.command, fields, rows)
         && (broken.Some? ==> ValidFailure(broken.value))
  }

  function CommandPacket(c: Command): bytes {
    match c
    case Query(sql) => [0x03] + sql
    case Prepare(sql) => [0x16] + sql
    case Execute(id, rest) => [0x17] + LE(id, 4) + rest
    case Other(code, rest) => [code] + rest
  }

  function FailurePacket(f: Failure): bytes {
    [0xff] + f.code + ['#' as int] + f.sqlState + f.message
  }

  function FieldPacket(f: Field): bytes
    requires ValidField(f)
  {
    ColumnPacket(f.qualifiers, f.column.def.name, f.orgName, f.fixed, f.column.def.fieldType, f.rest)
  }

  function FieldPackets(fields: seq<Field>): (s: seq<bytes>)
    requires forall i :: 0 <= i < |fields| ==> ValidField(fields[i])
    ensures |s| == |fields|
  {
    seq(|fields|, i requires 0 <= i < |fields| && ValidField(fields[i]) => FieldPacket(fields[i]))
  }

  function RowPackets(c: Command, fields: seq<Field>, rows: Rows): seq<bytes>
    requires ValidRows(c, fields, rows)
  {
    match rows
    case TextRows(texts) => seq(|texts|, i requires 0 <= i < |texts| => EncodeTextRow(texts[i]))
    case BinaryRows(cells) => seq(|cells|, i requires 0 <= i < |cells| => EncodeBinaryRow(ColumnsIn(fields), cells[i]))
  }

  function Written(t: Turn): Exchange
    requires ValidTurn(t)
  {
    var response :=
      match t.answer
      case NoAnswer => Silent
      case Done(affected, rest) => Ok([0x00] + LenEncInt(affected) + rest)
      case Failed(failure) => Err(FailurePacket(failure))
      case Prepared(id, numCols, numParams, rest, followUps) =>
        PrepareOk([0x00] + LE(id, 4) + LE(numCols, 2) + LE(numParams, 2) + rest, followUps)
      case Table(fields, rows, status, broken) =>
        ResultSet(LenEncInt(|fields|), FieldPackets(fields), [0xfe] + status, RowPackets(t.command, fields, rows),
                  if broken.Some? then FailurePacket(broken.value) else [0xfe] + status);
    Exchange(CommandPacket(t.command), response)
  }

  // ---------- what they mean ----------

  /** The SQL a command stands for, given the statements prepared before it. */
  function SqlMeant(cache: map<nat, bytes>, c: Command): Option<bytes> {
    match c
    case Query(sql) => Some(sql)
    case Prepare(sql) => Some(sql)
    case Execute(id, _) => if id in cache then Some(cache[id]) else None
    case Other(_, _) => None
  }

  function Statements(cache: map<nat, bytes>, t: Turn): map<nat, bytes> {
    if t.answer.Prepared? && t.command.Prepare? then cache[t.answer.id := t.command.sql] else cache
  }

  ghost predicate DistinctNames(cols: seq<Column>) {
    forall a, b :: 0 <= a < b < |cols| ==> cols[a].def.name != cols[b].def.name
  }

  /** A row is right exactly when it can be read, provided the names tell its columns apart. */
  ghost predicate RowMeant(isFloat: FloatSyntax, cols: seq<Column>, values: seq<Cell>, row: Row)
    requires ValidRow(cols, values)
  {
    && (ReadableRow(cols, values) ==> row == NamedRow(Defs(cols), ShownRow(isFloat, cols, values)))
    && (DistinctNames(cols) && row == NamedRow(Defs(cols), ShownRow(isFloat, cols, values)) ==> ReadableRow(cols, values))
  }

  /** The entry's rows are the rows sent, in order. */
  ghost predicate RowsMeant(isFloat: FloatSyntax, cols: seq<Column>, rows: Rows, data: seq<Row>)
    requires rows.BinaryRows? ==> forall i :: 0 <= i < |rows.cells| ==> ValidRow(cols, rows.cells[i])
    requires rows.TextRows? ==> forall i :: 0 <= i < |rows.texts| ==> |rows.texts[i]| == |cols|
  {
    match rows
    case TextRows(texts) =>
      && |data| == |texts|
      && forall i :: 0 <= i < |data| ==> data[i] == NamedRow(Defs(cols), CoerceAll(isFloat, Defs(cols), texts[i]))
    case BinaryRows(cells) =>
      && |data| == |cells|
      && forall i :: 0 <= i < |data| ==> ValidRow(cols, cells[i]) && RowMeant(isFloat, cols, cells[i], data[i])
  }

  ghost predicate EntryMeant(isFloat: FloatSyntax, sql: bytes, t: Turn, entry: LogEntry)
    requires ValidTurn(t)
  {
    match t.answer
    case NoAnswer => false
    case Prepared(_, _, _, _, _) => false
    case Done(affected, _) =>
      entry == LogEntry(sql, true, if 0 < affected < 0x8000_0000_0000_0000 then Some(affected) else None, [], [])
    case Failed(failure) => entry == LogEntry(sql, false, None, failure.message, [])
    case Table(fields, rows, _, broken) =>
      if broken.Some? then entry == LogEntry(sql, false, None, broken.value.message, [])
      else
        && entry == LogEntry(sql, true, if |entry.data| > 0 then Some(|entry.data|) else None, [], entry.data)
        && RowsMeant(isFloat, ColumnsIn(fields), rows, entry.data)
  }

  // ---------- the machine logs what is meant ----------

  lemma CommandIsMeant(cache: map<nat, bytes>, c: Command)
    requires ValidCommand(c)
    ensures SqlOf(CommandPacket(c), cache) == SqlMeant(cache, c)
    ensures CommandPacket(c) != [] && (CommandPacket(c)[0] == COM_STMT_EXECUTE <==> c.Execute?)
    ensures IsPrepare(CommandPacket(c)) <==> c.Prepare?
    ensures Logged(CommandPacket(c)) <==> !c.Other?
  {
    var sql := if c.Query? || c.Prepare? then c.sql else [0];
    var id := if c.Execute? then c.id else 0;
    var code := if c.Other? then c.code else COM_QUIT;
    CommandsAreRead(cache, sql, id, code, if c.Execute? || c.Other? then c.rest else []);
  }

  lemma FailureIsRead(f: Failure)
    requires ValidFailure(f)
    ensures IsERR(FailurePacket(f)) && !IsEOF(FailurePacket(f)) && ErrorMessage(FailurePacket(f)) == f.message
  {
    OutcomesAreRead(0, f.code, f.sqlState, f.message, []);
  }

  lemma CountIsRead(affected: nat, rest: bytes)
    requires affected < 0x1_0000_0000_0000_0000
    ensures var n := OKAffectedRows([0x00] + LenEncInt(affected) + rest);
            (n > 0 <==> 0 < affected < 0x8000_0000_0000_0000) && (n > 0 ==> n == affected)
  {
    hide ReadLenEncInt;
    LenEncIntRoundTrip(affected, rest);
    assert ([0x00] + LenEncInt(affected) + rest)[1..] == LenEncInt(affected) + rest;
  }

  lemma PreparedIsRead(id: nat, numCols: nat, numParams: nat, rest: bytes)
    requires 0 < id < 0x1_0000_0000 && numCols < 0x1_0000 && numParams < 0x1_0000 && rest != []
    ensures var p := [0x00] + LE(id, 4) + LE(numCols, 2) + LE(numParams, 2) + rest;
            && IsPrepareOK(p) && PreparedId(p) == id
            && FollowUps(p) == (if numParams == 0 then 0 else numParams + 1) + (if numCols == 0 then 0 else numCols + 1)
  {
    PrepareOkIsRead(id, numCols, numParams, rest);
  }

  lemma HeaderIsRead(n: nat)
    requires 0 < n < 0x100_0000
    ensures IsResultSet(LenEncInt(n)) && ReadLenEncInt(LenEncInt(n)).0 == n
  {
    LenEncIntRoundTrip(n, []);
    assert LenEncInt(n) + [] == LenEncInt(n);
  }

  lemma FieldsAreRead(fields: seq<Field>)
    requires forall i :: 0 <= i < |fields| ==> ValidField(fields[i])
    ensures ColumnsOf(FieldPackets(fields)) == Defs(ColumnsIn(fields))
  {
    hide ColumnOf, ColumnPacket;
    forall i | 0 <= i < |fields| ensures ColumnsOf(FieldPackets(fields))[i] == Defs(ColumnsIn(fields))[i] {
      var f := fields[i];
      ColumnRoundTrip(f.qualifiers, f.column.def.name, f.orgName, f.fixed, f.column.def.fieldType, f.rest);
    }
  }

  lemma RowsAreRows(c: Command, fields: seq<Field>, rows: Rows)
    requires fields != [] && ValidRows(c, fields, rows)
    ensures forall i :: 0 <= i < |RowPackets(c, fields, rows)| ==>
      !IsEOF(RowPackets(c, fields, rows)[i]) && !IsERR(RowPackets(c, fields, rows)[i])
  {
    hide EncodeTextRow, EncodeBinaryRow, IsEOF, IsERR, ValidRow, Encodable;
    forall i | 0 <= i < |RowPackets(c, fields, rows)|
      ensures !IsEOF(RowPackets(c, fields, rows)[i]) && !IsERR(RowPackets(c, fields, rows)[i])
    {
      match rows
      case TextRows(texts) => RowsAreNotTerminators(texts[i], [], []);
      case BinaryRows(cells) => RowsAreNotTerminators([None], ColumnsIn(fields), cells[i]);
    }
  }

  /** What clients and servers write is a valid exchange. */
  lemma WrittenIsValid(t: Turn)
    requires ValidTurn(t)
    ensures ValidExchange(Written(t))
  {
    hide FollowUps, IsPrepareOK, IsPrepare, Logged, FailurePacket, LE, LenEncInt, ReadLenEncInt, CommandPacket, ValidRows,
      FieldPackets, RowPackets, ValidField;
    CommandIsMeant(map[], t.command);
    match t.answer
    case NoAnswer =>
    case Done(_, _) =>
    case Failed(failure) => FailureIsRead(failure);
    case Prepared(id, numCols, numParams, rest, _) => PreparedIsRead(id, numCols, numParams, rest);
    case Table(fields, rows, status, broken) =>
      HeaderIsRead(|fields|);
      RowsAreRows(t.command, fields, rows);
      if broken.Some? {
        FailureIsRead(broken.value);
      }
  }

  lemma StatementsAreKept(cache: map<nat, bytes>, t: Turn)
    requires ValidTurn(t) && ValidExchange(Written(t))
    ensures CacheAfter(cache, Written(t)) == Statements(cache, t)
  {
    hide FollowUps, LE;
    if t.answer.Prepared? {
      PreparedIsRead(t.answer.id, t.answer.numCols, t.answer.numParams, t.answer.rest);
      assert CommandPacket(t.command)[1..] == t.command.sql;
    }
  }

  lemma RowIsMeant(isFloat: FloatSyntax, cols: seq<Column>, values: seq<Cell>)
    requires ValidRow(cols, values)
    ensures RowMeant(isFloat, cols, values,
                     NamedRow(Defs(cols), BinaryRow(isFloat, EncodeBinaryRow(cols, values), Defs(cols))))
  {
    hide NamedRow, BinaryRow, ShownRow, EncodeBinaryRow, ReadableRow, ValidCell;
    BinaryRowRoundTrip(isFloat, cols, values);
    BinaryRowIsFull(isFloat, cols, values);
    if DistinctNames(cols) {
      assert forall a, b :: 0 <= a < b < |cols| ==> Defs(cols)[a].name != Defs(cols)[b].name;
      NamedRowIsInjective(Defs(cols), BinaryRow(isFloat, EncodeBinaryRow(cols, values), Defs(cols)),
                          ShownRow(isFloat, cols, values));
    }
  }

  /** The rows of a table as its packets show them. */
  lemma RowsAreMeant(isFloat: FloatSyntax, c: Command, fields: seq<Field>, rows: Rows, data: seq<Row>)
    requires ValidCommand(c) && ValidRows(c, fields, rows) && |data| == |RowPackets(c, fields, rows)|
    requires forall i :: 0 <= i < |data| ==>
      data[i] == ShownPacket(isFloat, CommandPacket(c), Defs(ColumnsIn(fields)), RowPackets(c, fields, rows)[i])
    ensures RowsMeant(isFloat, ColumnsIn(fields), rows, data)
  {
    hide NamedRow, BinaryRow, TextRow, CoerceAll, EncodeTextRow, EncodeBinaryRow, ValidRow, Encodable, RowMeant, CommandPacket;
    var cols := ColumnsIn(fields);
    CommandIsMeant(map[], c);
    match rows
    case TextRows(texts) =>
      forall i | 0 <= i < |data| ensures data[i] == NamedRow(Defs(cols), CoerceAll(isFloat, Defs(cols), texts[i])) {
        TextRowRoundTrip(texts[i]);
      }
    case BinaryRows(cells) =>
      forall i | 0 <= i < |data| ensures ValidRow(cols, cells[i]) && RowMeant(isFloat, cols, cells[i], data[i]) {
        RowIsMeant(isFloat, cols, cells[i]);
      }
  }

  /** An entry that tells what was written says what was meant. */
  lemma TellingIsMeaning(isFloat: FloatSyntax, sql: bytes, t: Turn, entry: LogEntry)
    requires ValidTurn(t) && !t.answer.NoAnswer? && !t.answer.Prepared?
    requires Tells(isFloat, sql, Written(t), entry)
    ensures EntryMeant(isFloat, sql, t, entry)
  {
    hide ShownPacket, ColumnsOf, LenEncInt, OKAffectedRows, ErrorMessage, FailurePacket, ValidRows, RowsMeant, FieldPackets,
      RowPackets, CommandPacket, ValidField;
    match t.answer
    case Done(affected, rest) => CountIsRead(affected, rest);
    case Failed(failure) => FailureIsRead(failure);
    case Table(fields, rows, _, broken) =>
      if broken.Some? {
        FailureIsRead(broken.value);
      } else {
        FieldsAreRead(fields);
        RowsAreMeant(isFloat, t.command, fields, rows, entry.data);
      }
  }

  /** The turns that are worth an entry, each with its SQL, in order. */
  function ToldTurns(cache: map<nat, bytes>, turns: seq<Turn>): seq<(bytes, Turn)>
    decreases |turns|
  {
    if turns == [] then []
    else
      var t := turns[0];
      (if SqlMeant(cache, t.command).Some? && !t.answer.Prepared? then [(SqlMeant(cache, t.command).value, t)] else []) +
      ToldTurns(Statements(cache, t), turns[1..])
  }

  function AllWritten(turns: seq<Turn>): (s: seq<Exchange>)
    requires forall i :: 0 <= i < |turns| ==> ValidTurn(turns[i])
    ensures |s| == |turns|
  {
    seq(|turns|, i requires 0 <= i < |turns| && ValidTurn(turns[i]) => Written(turns[i]))
  }

  ghost predicate AllMeant(isFloat: FloatSyntax, told: seq<(bytes, Turn)>, entries: seq<LogEntry>) {
    |entries| == |told| &&
    forall k :: 0 <= k < |told| ==> ValidTurn(told[k].1) && EntryMeant(isFloat, told[k].0, told[k].1, entries[k])
  }

  /** One turn on an idle machine adds the entry it means, or none. */
  lemma TurnIsLogged(isFloat: FloatSyntax, st: State, t: Turn)
    requires Idle(st) && ValidTurn(t)
    ensures var after := ReceiveAll(true, isFloat, Send(st, Written(t).command), Packets(Written(t).response));
            && Idle(after) && after.stmtCache == Statements(st.stmtCache, t) && st.log <= after.log
            && if SqlMeant(st.stmtCache, t.command).Some? && !t.answer.Prepared? then
                 |after.log| == |st.log| + 1 &&
                 EntryMeant(isFloat, SqlMeant(st.stmtCache, t.command).value, t, after.log[|st.log|])
               else after.log == st.log
  {
    hide ReceiveAll, Send, Idle, ValidExchange, EntryMeant, Tells, CacheAfter, SqlOf, CommandPacket;
    WrittenIsValid(t);
    ExchangeIsTold(isFloat, st, Written(t));
    CommandIsMeant(st.stmtCache, t.command);
    StatementsAreKept(st.stmtCache, t);
    if SqlMeant(st.stmtCache, t.command).Some? && !t.answer.Prepared? {
      var after := ReceiveAll(true, isFloat, Send(st, Written(t).command), Packets(Written(t).response));
      TellingIsMeaning(isFloat, SqlMeant(st.stmtCache, t.command).value, t, after.log[|st.log|]);
    }
  }

  /** From the bytes of any serial session, as clients and servers write it, the log gains one entry for
      each turn that is worth one, in order, and each says what the command and its answer mean. */
  lemma {:induction false} SessionMeansItsLog(isFloat: FloatSyntax, st: State, turns: seq<Turn>)
    requires Idle(st) && forall i :: 0 <= i < |turns| ==> ValidTurn(turns[i])
    ensures var after := Run(true, isFloat, st, AllWritten(turns));
            && Idle(after) && st.log <= after.log
            && AllMeant(isFloat, ToldTurns(st.stmtCache, turns), after.log[|st.log|..])
    decreases |turns|
  {
    hide ReceiveAll, Send, Packets, Idle, EntryMeant, Statements, SqlMeant, Written, ValidTurn;
    if turns != [] {
      var t := turns[0];
      TurnIsLogged(isFloat, st, t);
      var next := ReceiveAll(true, isFloat, Send(st, Written(t).command), Packets(Written(t).response));
      assert AllWritten(turns)[1..] == AllWritten(turns[1..]);
      SessionMeansItsLog(isFloat, next, turns[1..]);
      var log := Run(true, isFloat, st, AllWritten(turns)).log;
      assert log[|st.log|..] == next.log[|st.log|..] + log[|next.log|..];
    }
  }

  /** A row sent in the binary protocol is in its place in the log with the values the server holds, if and
      only if no cell of the row holds a year, a date or time, or an unsigned integer with the top bit set. */
  lemma EncodedBinaryRowsAreLogged(isFloat: FloatSyntax, st: State, t: Turn, i: nat)
    requires Idle(st) && ValidTurn(t) && t.command.Execute? && t.command.id in st.stmtCache
    requires t.answer.Table? && t.answer.broken == None && i < |t.answer.rows.cells| && DistinctNames(ColumnsIn(t.answer.fields))
    ensures var cols, values := ColumnsIn(t.answer.fields), t.answer.rows.cells[i];
            var after := ReceiveAll(true, isFloat, Send(st, Written(t).command), Packets(Written(t).response));
            && ValidRow(cols, values) && |after.log| == |st.log| + 1 && i < |after.log[|st.log|].data|
            && (after.log[|st.log|].data[i] == NamedRow(Defs(cols), ShownRow(isFloat, cols, values))
                <==> ReadableRow(cols, values))
  {
    hide ReceiveAll, Send, Written, Idle, NamedRow, ShownRow, ReadableRow, ValidRow, DistinctNames;
    TurnIsLogged(isFloat, st, t);
  }

  /** A row sent in the text protocol is in its place in the log with the values the server sent. */
  lemma EncodedTextRowsAreLogged(isFloat: FloatSyntax, st: State, t: Turn, i: nat)
    requires Idle(st) && ValidTurn(t) && t.command.Query?
    requires t.answer.Table? && t.answer.broken == None && i < |t.answer.rows.texts|
    ensures var cols := Defs(ColumnsIn(t.answer.fields));
            var after := ReceiveAll(true, isFloat, Send(st, Written(t).command), Packets(Written(t).response));
            && |t.answer.rows.texts[i]| == |cols| && |after.log| == |st.log| + 1 && i < |after.log[|st.log|].data|
            && after.log[|st.log|].data[i] == NamedRow(cols, CoerceAll(isFloat, cols, t.answer.rows.texts[i]))
  {
    hide ReceiveAll, Send, Written, Idle, NamedRow, CoerceAll;
    TurnIsLogged(isFloat, st, t);
  }
}
