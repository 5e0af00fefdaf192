/** Text and binary result rows: the parsers of services/db-proxy/mysql/protocol.go
    and the encoders they invert. */
module MySqlRows {
  import opened Bytes
  import opened Options
  import opened Strconv
  import opened MySqlWire
  import opened MySqlTemporal

  /** Floats stay uninterpreted: their bits in a binary row, the decimal text in a text row. */
  datatype Value =
    | Null
    | Int(i: int)
    | Float32(bits: nat)
    | Float64(bits: nat)
    | ParsedFloat(source: bytes)
    | Str(text: bytes)

  /** Which texts strconv.ParseFloat accepts. */
  type FloatSyntax = bytes -> bool

  function Coerce(isFloat: FloatSyntax, s: bytes, ft: byte): Value {
    if ft in {TYPE_TINY, TYPE_SHORT, TYPE_LONG, TYPE_LONGLONG, TYPE_INT24} && ParseInt(s).Some? then
      Int(ParseInt(s).value)
    else if ft in {TYPE_FLOAT, TYPE_DOUBLE, TYPE_NEWDECIMAL} && isFloat(s) then
      ParsedFloat(s)
    else
      Str(s)
  }

  /** Text in an integer column is shown as the number it spells, a number in a float column as such, and
      text of every other column as it is. */
  lemma CoercionShows(isFloat: FloatSyntax, i: int, s: bytes, ft: byte)
    requires MIN_INT64 <= i <= MAX_INT64
    ensures ft in {TYPE_TINY, TYPE_SHORT, TYPE_LONG, TYPE_LONGLONG, TYPE_INT24} ==> Coerce(isFloat, FormatInt(i), ft) == Int(i)
    ensures ft in {TYPE_FLOAT, TYPE_DOUBLE, TYPE_NEWDECIMAL} && isFloat(s) ==> Coerce(isFloat, s, ft) == ParsedFloat(s)
    ensures ft > TYPE_INT24 && ft != TYPE_NEWDECIMAL ==> Coerce(isFloat, s, ft) == Str(s)
  {
    ParseIntRoundTrip(i);
  }

  // ---------- text rows ----------

  function TextRow(payload: bytes, numCols: nat): (values: seq<Option<bytes>>)
    ensures |values| <= numCols
  {
    if numCols == 0 || payload == [] then []
    else
      match ReadLenEncString(payload)
      case NullStr => [None] + TextRow(payload[1..], numCols - 1)
      case Malformed => []
      case Text(s, n) => [Some(s)] + TextRow(payload[n..], numCols - 1)
  }

  method ParseTextRowValues(payload: bytes, numCols: nat) returns (values: seq<Option<bytes>>)
    ensures values == TextRow(payload, numCols)
  {
    hide ReadLenEncString, TextRow;
    values := [];
    var off, i := 0, 0;
    assert payload[0..] == payload;
    while i < numCols && off < |payload|
      invariant 0 <= i <= numCols && 0 <= off <= |payload|
      invariant values + TextRow(payload[off..], numCols - i) == TextRow(payload, numCols)
      decreases numCols - i
    {
      TextRowStep(values, payload, off, numCols - i);
      if payload[off] == NULL_VALUE {
        values := values + [None];
        off := off + 1;
      } else {
        var s := ReadLenEncString(payload[off..]);
        if Size(s) == 0 {
          break;
        }
        values := values + [Some(TextOf(s))];
        off := off + Size(s);
      }
      i := i + 1;
    }
    if i == numCols || off == |payload| {
      TextRowEnds(payload[off..], numCols - i);
    }
  }

  /** What one turn of the loop adds in front of the rest of the row. */
  lemma TextRowStep(done: seq<Option<bytes>>, payload: bytes, off: nat, n: nat)
    requires off < |payload| && n > 0
    ensures var s := ReadLenEncString(payload[off..]);
            var all := done + TextRow(payload[off..], n);
            if payload[off] == NULL_VALUE then all == done + [None] + TextRow(payload[off + 1..], n - 1)
            else if Size(s) == 0 then all == done
            else all == done + [Some(TextOf(s))] + TextRow(payload[off + Size(s)..], n - 1)
  {
    var s := ReadLenEncString(payload[off..]);
    assert s == NullStr <==> payload[off] == NULL_VALUE;
    hide ReadLenEncString;
    DropTwice(payload, off, 1);
    DropTwice(payload, off, Size(s));
  }

  lemma TextRowEnds(payload: bytes, n: nat)
    requires payload == [] || n == 0
    ensures TextRow(payload, n) == []
  {
  }

  ghost predicate Encodable(values: seq<Option<bytes>>) {
    forall i :: 0 <= i < |values| && values[i].Some? ==> |values[i].value| < 0x100_0000
  }

  function EncodeTextRow(values: seq<Option<bytes>>): bytes
    requires Encodable(values)
  {
    if values == [] then []
    else (if values[0] == None then [NULL_VALUE] else LenEncString(values[0].value)) + EncodeTextRow(values[1..])
  }

  /** Decoding a text row returns the encoded values, NULLs and empty strings included. */
  lemma {:induction false} TextRowRoundTrip(values: seq<Option<bytes>>)
    requires Encodable(values)
    ensures TextRow(EncodeTextRow(values), |values|) == values
  {
    if values != [] {
      var tail := EncodeTextRow(values[1..]);
      var payload := EncodeTextRow(values);
      TextRowRoundTrip(values[1..]);
      if values[0].Some? {
        var s := values[0].value;
        LenEncStringRoundTrip(s, tail);
        assert payload[|LenEncString(s)|..] == tail;
      } else {
        assert payload[1..] == tail;
      }
    }
  }

  // ---------- binary rows ----------

  function BitmapLength(numCols: nat): nat { (numCols + 9) / 8 }

  function Bit(j: nat): nat
    requires j < 8
  {
    [1, 2, 4, 8, 16, 32, 64, 128][j]
  }

  /** Whether bit `n` of a bitmap is set, least significant bit of each byte first. */
  predicate TestBit(bitmap: bytes, n: nat)
    requires n / 8 < |bitmap|
  {
    bitmap[n / 8] / Bit(n % 8) % 2 == 1
  }

  function IntWidth(ft: byte): nat {
    if ft == TYPE_TINY then 1
    else if ft == TYPE_SHORT then 2
    else if ft == TYPE_LONG || ft == TYPE_INT24 then 4
    else if ft == TYPE_LONGLONG then 8
    else 0
  }

  /** The value at the front of `data` and its size; None when it is cut short. */
  function BinaryCell(isFloat: FloatSyntax, ft: byte, data: bytes): (cell: Option<(Value, nat)>)
    ensures cell.Some? ==> cell.value.1 <= |data|
  {
    var w := IntWidth(ft);
    if w > 0 then
      if |data| < w then None else (FromLEBound(data[..w]); Some((Int(Signed(FromLE(data[..w]), w)), w)))
    else if ft == TYPE_FLOAT then
      if |data| < 4 then None else Some((Float32(FromLE(data[..4])), 4))
    else if ft == TYPE_DOUBLE then
      if |data| < 8 then None else Some((Float64(FromLE(data[..8])), 8))
    else
      match ReadLenEncString(data)
      case NullStr => Some((Null, 1))
      case Malformed => None
      case Text(s, n) => Some((Coerce(isFloat, s, ft), n))
  }

  function Nulls(n: nat): (s: seq<Value>)
    ensures |s| == n
  {
    seq(n, _ => Null)
  }

  /** The values of columns `i` and up, whose cells start at the front of `data`. */
  function BinaryCells(isFloat: FloatSyntax, bitmap: bytes, cols: seq<ColumnDef>, i: nat, data: bytes): (s: seq<Value>)
    requires i <= |cols| && |bitmap| == BitmapLength(|cols|)
    ensures |s| == |cols| - i
    decreases |cols| - i
  {
    if i == |cols| then []
    else if TestBit(bitmap, i + 2) then [Null] + BinaryCells(isFloat, bitmap, cols, i + 1, data)
    else
      match BinaryCell(isFloat, cols[i].fieldType, data)
      case None => Nulls(|cols| - i)
      case Some((v, n)) => [v] + BinaryCells(isFloat, bitmap, cols, i + 1, data[n..])
  }

  function BinaryRow(isFloat: FloatSyntax, payload: bytes, cols: seq<ColumnDef>): (s: seq<Value>)
    ensures |s| <= |cols|
  {
    var m := BitmapLength(|cols|);
    if |payload| < 1 + m then []
    else BinaryCells(isFloat, payload[1..1 + m], cols, 0, payload[1 + m..])
  }

  method ParseBinaryRowValues(isFloat: FloatSyntax, payload: bytes, cols: seq<ColumnDef>) returns (values: seq<Value>)
    ensures values == BinaryRow(isFloat, payload, cols)
  {
    hide BinaryCells;
    var m := BitmapLength(|cols|);
    if |payload| < 1 + m {
      return [];
    }
    values := ParseCells(isFloat, payload, payload[1..1 + m], cols, 1 + m);
  }

  /** The loop over the columns, whose cells start at `start`. */
  method ParseCells(isFloat: FloatSyntax, payload: bytes, bitmap: bytes, cols: seq<ColumnDef>, start: nat)
    returns (values: seq<Value>)
    requires |bitmap| == BitmapLength(|cols|) && start <= |payload|
    ensures values == BinaryCells(isFloat, bitmap, cols, 0, payload[start..])
  {
    hide BinaryCell, TestBit, BinaryCells;
    values := Nulls(|cols|);
    var off := start;
    ghost var done: seq<Value> := [];
    ghost var all := BinaryCells(isFloat, bitmap, cols, 0, payload[start..]);
    for i := 0 to |cols|
      invariant 0 <= off <= |payload| && |done| == i
      invariant values == done + Nulls(|cols| - i)
      invariant done + BinaryCells(isFloat, bitmap, cols, i, payload[off..]) == all
    {
      BinaryCellsStep(isFloat, bitmap, cols, i, payload, off, done);
      if TestBit(bitmap, i + 2) {
        SetNext(done, |cols| - i, Null);
        done := done + [Null];
      } else {
        var cell := BinaryCell(isFloat, cols[i].fieldType, payload[off..]);
        if cell == None {
          return;
        }
        var (v, n) := cell.value;
        SetNext(done, |cols| - i, v);
        values := values[i := v];
        done := done + [v];
        off := off + n;
      }
    }
    NoCells(isFloat, bitmap, cols, payload[off..]);
  }

  lemma NoCells(isFloat: FloatSyntax, bitmap: bytes, cols: seq<ColumnDef>, data: bytes)
    requires |bitmap| == BitmapLength(|cols|)
    ensures BinaryCells(isFloat, bitmap, cols, |cols|, data) == []
  {
  }

  /** What one turn of the loop adds in front of the remaining cells. */
  lemma BinaryCellsStep(isFloat: FloatSyntax, bitmap: bytes, cols: seq<ColumnDef>, i: nat, payload: bytes, off: nat,
                        done: seq<Value>)
    requires i < |cols| && |bitmap| == BitmapLength(|cols|) && off <= |payload|
    ensures var cell := BinaryCell(isFloat, cols[i].fieldType, payload[off..]);
            var all := done + BinaryCells(isFloat, bitmap, cols, i, payload[off..]);
            if TestBit(bitmap, i + 2) then
              all == done + [Null] + BinaryCells(isFloat, bitmap, cols, i + 1, payload[off..])
            else if cell == None then all == done + Nulls(|cols| - i)
            else all == done + [cell.value.0] + BinaryCells(isFloat, bitmap, cols, i + 1, payload[off + cell.value.1..])
  {
    hide BinaryCell, TestBit;
    var cell := BinaryCell(isFloat, cols[i].fieldType, payload[off..]);
    if cell.Some? {
      DropTwice(payload, off, cell.value.1);
    }
  }

  lemma SetNext(done: seq<Value>, n: nat, v: Value)
    requires n > 0
    ensures (done + Nulls(n))[|done| := v] == done + [v] + Nulls(n - 1)
    ensures v.Null? ==> done + Nulls(n) == done + [v] + Nulls(n - 1)
  {
  }

  /** The binary protocol's type YEAR, which the source has no case for. */
  const TYPE_YEAR: byte := 0x0d

  /** A column as the server has it; the parser never reads the flag that makes it unsigned, nor the
      number of digits it keeps after a second. */
  datatype Column = Column(def: ColumnDef, unsigned: bool, decimals: nat)

  /** A cell as the server has it: NULL, a number or a text, or a date or time. */
  datatype Cell = Scalar(v: Value) | Moment(t: Temporal)

  predicate IsNull(cell: Cell) { cell == Scalar(Null) }

  function Defs(cols: seq<Column>): (s: seq<ColumnDef>)
    ensures |s| == |cols|
  {
    seq(|cols|, i requires 0 <= i < |cols| => cols[i].def)
  }

  /** The bytes an integer takes in the protocol; 0 for the types that are not integers. */
  function WireWidth(ft: byte): nat {
    if ft == TYPE_YEAR then 2 else IntWidth(ft)
  }

  ghost predicate ValidCell(c: Column, cell: Cell) {
    if IsTemporal(c.def.fieldType) then cell.Moment? && ValidTemporal(c.def.fieldType, c.decimals, cell.t)
    else cell.Scalar? && ValidScalar(c, cell.v)
  }

  ghost predicate ValidScalar(c: Column, v: Value) {
    var w := WireWidth(c.def.fieldType);
    if w > 0 then
      v.Int? && if c.unsigned || c.def.fieldType == TYPE_YEAR then 0 <= v.i < Pow256(w)
                else -(Pow256(w) / 2) <= v.i < Pow256(w) / 2
    else if c.def.fieldType == TYPE_FLOAT then v.Float32? && v.bits < 0x1_0000_0000
    else if c.def.fieldType == TYPE_DOUBLE then v.Float64? && v.bits < 0x1_0000_0000_0000_0000
    else v.Str? && |v.text| < 0x100_0000
  }

  function EncodeScalar(c: Column, v: Value): bytes
    requires ValidScalar(c, v)
  {
    var w := WireWidth(c.def.fieldType);
    if w > 0 then LE(if v.i >= 0 then v.i else v.i + Pow256(w), w)
    else if c.def.fieldType == TYPE_FLOAT then LE(v.bits, 4)
    else if c.def.fieldType == TYPE_DOUBLE then LE(v.bits, 8)
    else LenEncString(v.text)
  }

  /** Dates and times are sent as packed fields behind a length. */
  function EncodeCell(c: Column, cell: Cell): bytes
    requires ValidCell(c, cell)
  {
    match cell
    case Scalar(v) => EncodeScalar(c, v)
    case Moment(t) => LenEncString(Pack(c.def.fieldType, c.decimals, t))
  }

  /** What the log should show for a cell: numeric text becomes a number, a date or time is spelt as the
      text protocol spells it. */
  function Shown(isFloat: FloatSyntax, c: Column, cell: Cell): Value
    requires IsNull(cell) || ValidCell(c, cell)
  {
    match cell
    case Scalar(v) => if v.Str? then Coerce(isFloat, v.text, c.def.fieldType) else v
    case Moment(t) => Str(TemporalText(c.def.fieldType, c.decimals, t))
  }

  /** Neither a year, nor a date or time, nor an unsigned integer with the top bit set. */
  predicate Readable(c: Column, cell: Cell) {
    var w := IntWidth(c.def.fieldType);
    cell.Scalar? && c.def.fieldType != TYPE_YEAR && (cell.v.Int? && w > 0 ==> cell.v.i < Pow256(w) / 2)
  }

  /** A cell is read back, with its size, if and only if it is neither a year, nor a date or time, nor an
      unsigned integer with the top bit set; otherwise another value is read, or none. */
  lemma CellRoundTrip(isFloat: FloatSyntax, c: Column, cell: Cell, rest: bytes)
    requires ValidCell(c, cell)
    ensures var read := BinaryCell(isFloat, c.def.fieldType, EncodeCell(c, cell) + rest);
            var shown := Shown(isFloat, c, cell);
            && (read == Some((shown, |EncodeCell(c, cell)|)) <==> Readable(c, cell))
            && (!Readable(c, cell) ==> read == None || read.value.0 != shown)
  {
    if cell.Moment? {
      MomentIsRaw(isFloat, c, cell.t, rest);
      PackedIsNotText(c.def.fieldType, c.decimals, cell.t);
    } else {
      ScalarRoundTrip(isFloat, c, cell.v, rest);
    }
  }

  lemma ScalarRoundTrip(isFloat: FloatSyntax, c: Column, v: Value, rest: bytes)
    requires ValidCell(c, Scalar(v))
    ensures var read := BinaryCell(isFloat, c.def.fieldType, EncodeScalar(c, v) + rest);
            var shown := Shown(isFloat, c, Scalar(v));
            && (read == Some((shown, |EncodeScalar(c, v)|)) <==> Readable(c, Scalar(v)))
            && (!Readable(c, Scalar(v)) ==> read == None || read.value.0 != shown)
  {
    Pow256Values();
    var data := EncodeScalar(c, v) + rest;
    var ft := c.def.fieldType;
    if ft == TYPE_YEAR {
      hide ReadLenEncString;
    } else if IntWidth(ft) > 0 {
      IntegerRoundTrip(v.i, IntWidth(ft));
      assert data[..IntWidth(ft)] == EncodeScalar(c, v);
    } else if ft == TYPE_FLOAT || ft == TYPE_DOUBLE {
      var n := |EncodeScalar(c, v)|;
      LERoundTrip(v.bits, n);
      assert data[..n] == EncodeScalar(c, v);
    } else {
      LenEncStringRoundTrip(v.text, rest);
    }
  }

  /** Every date and time is logged as the bytes of its packed fields; the cells after it are found. */
  lemma MomentIsRaw(isFloat: FloatSyntax, c: Column, t: Temporal, rest: bytes)
    requires ValidCell(c, Moment(t))
    ensures var packed := Pack(c.def.fieldType, c.decimals, t);
            BinaryCell(isFloat, c.def.fieldType, EncodeCell(c, Moment(t)) + rest)
            == Some((Str(packed), |EncodeCell(c, Moment(t))|))
  {
    hide ReadLenEncString, Pack, LenEncString, ValidTemporal;
    LenEncStringRoundTrip(Pack(c.def.fieldType, c.decimals, t), rest);
  }

  /** Read as signed, an integer of `w` bytes comes back exactly when it is below half the range. */
  lemma IntegerRoundTrip(i: int, w: nat)
    requires w > 0 && -(Pow256(w) / 2) <= i < Pow256(w)
    ensures var n := if i >= 0 then i else i + Pow256(w);
            n < Pow256(w) && FromLE(LE(n, w)) == n && (Signed(n, w) == i <==> i < Pow256(w) / 2)
  {
    assert Pow256(w) == 256 * Pow256(w - 1);
    LERoundTrip(if i >= 0 then i else i + Pow256(w), w);
  }

  predicate IsNullAt(values: seq<Cell>, i: int) {
    0 <= i < |values| && IsNull(values[i])
  }

  function NullBit(values: seq<Cell>, k: nat, j: nat): nat {
    if IsNullAt(values, 8 * k + j - 2) then 1 else 0
  }

  function BitmapByte(values: seq<Cell>, k: nat): byte {
    NullBit(values, k, 0) + 2 * NullBit(values, k, 1) + 4 * NullBit(values, k, 2) + 8 * NullBit(values, k, 3) +
    16 * NullBit(values, k, 4) + 32 * NullBit(values, k, 5) + 64 * NullBit(values, k, 6) + 128 * NullBit(values, k, 7)
  }

  /** The null bitmap of a binary row: column `i` owns bit `i + 2`. */
  function NullBitmap(values: seq<Cell>): (b: bytes)
    ensures |b| == BitmapLength(|values|)
  {
    seq(BitmapLength(|values|), k requires 0 <= k => BitmapByte(values, k))
  }

  lemma BitmapBit(values: seq<Cell>, k: nat, j: nat)
    requires j < 8
    ensures BitmapByte(values, k) / Bit(j) % 2 == NullBit(values, k, j)
  {
    SumOfBits(NullBit(values, k, 0), NullBit(values, k, 1), NullBit(values, k, 2), NullBit(values, k, 3),
              NullBit(values, k, 4), NullBit(values, k, 5), NullBit(values, k, 6), NullBit(values, k, 7));
  }

  lemma SumOfBits(b0: nat, b1: nat, b2: nat, b3: nat, b4: nat, b5: nat, b6: nat, b7: nat)
    requires b0 < 2 && b1 < 2 && b2 < 2 && b3 < 2 && b4 < 2 && b5 < 2 && b6 < 2 && b7 < 2
    ensures var b := b0 + 2 * b1 + 4 * b2 + 8 * b3 + 16 * b4 + 32 * b5 + 64 * b6 + 128 * b7;
            && b / 1 % 2 == b0 && b / 2 % 2 == b1 && b / 4 % 2 == b2 && b / 8 % 2 == b3
            && b / 16 % 2 == b4 && b / 32 % 2 == b5 && b / 64 % 2 == b6 && b / 128 % 2 == b7
  {
    var b := b0 + 2 * b1 + 4 * b2 + 8 * b3 + 16 * b4 + 32 * b5 + 64 * b6 + 128 * b7;
    assert b / 128 == b7;
    assert b / 64 == b6 + 2 * b7;
    assert b / 32 == b5 + 2 * (b6 + 2 * b7);
    assert b / 16 == b4 + 2 * (b5 + 2 * (b6 + 2 * b7));
    assert b / 8 == b3 + 2 * (b4 + 2 * (b5 + 2 * (b6 + 2 * b7)));
    assert b / 4 == b2 + 2 * (b3 + 2 * (b4 + 2 * (b5 + 2 * (b6 + 2 * b7))));
    assert b / 2 == b1 + 2 * (b2 + 2 * (b3 + 2 * (b4 + 2 * (b5 + 2 * (b6 + 2 * b7)))));
  }

  lemma BitmapMarksNulls(values: seq<Cell>, i: nat)
    requires i < |values|
    ensures (i + 2) / 8 < BitmapLength(|values|)
    ensures TestBit(NullBitmap(values), i + 2) <==> IsNull(values[i])
  {
    var k, j := (i + 2) / 8, (i + 2) % 8;
    BitmapBit(values, k, j);
    assert NullBitmap(values)[k] == BitmapByte(values, k);
  }

  ghost predicate ValidRow(cols: seq<Column>, values: seq<Cell>) {
    |values| == |cols| && forall i :: 0 <= i < |cols| ==> IsNull(values[i]) || ValidCell(cols[i], values[i])
  }

  function EncodeCells(cols: seq<Column>, values: seq<Cell>, i: nat): bytes
    requires ValidRow(cols, values) && i <= |cols|
    decreases |cols| - i
  {
    if i == |cols| then []
    else (if IsNull(values[i]) then [] else EncodeCell(cols[i], values[i])) + EncodeCells(cols, values, i + 1)
  }

  function EncodeBinaryRow(cols: seq<Column>, values: seq<Cell>): bytes
    requires ValidRow(cols, values)
  {
    [0] + NullBitmap(values) + EncodeCells(cols, values, 0)
  }

  function ShownRow(isFloat: FloatSyntax, cols: seq<Column>, values: seq<Cell>): (s: seq<Value>)
    requires ValidRow(cols, values)
    ensures |s| == |cols|
  {
    seq(|cols|, i requires 0 <= i < |cols| => Shown(isFloat, cols[i], values[i]))
  }

  predicate ReadableRow(cols: seq<Column>, values: seq<Cell>)
    requires |values| == |cols|
  {
    forall i | 0 <= i < |cols| :: IsNull(values[i]) || Readable(cols[i], values[i])
  }

  /** What decoding makes of the cells from column `i` on, one column at a time. */
  lemma OneCell(isFloat: FloatSyntax, cols: seq<Column>, values: seq<Cell>, i: nat)
    requires ValidRow(cols, values) && i < |cols|
    ensures var shown := ShownRow(isFloat, cols, values);
            var read := BinaryCells(isFloat, NullBitmap(values), Defs(cols), i, EncodeCells(cols, values, i));
            var more := BinaryCells(isFloat, NullBitmap(values), Defs(cols), i + 1, EncodeCells(cols, values, i + 1));
            if IsNull(values[i]) || Readable(cols[i], values[i]) then read == [shown[i]] + more else read[0] != shown[i]
  {
    hide BinaryCell, EncodeCell, TestBit, NullBitmap, ValidCell, Readable;
    BitmapMarksNulls(values, i);
    var tail := EncodeCells(cols, values, i + 1);
    if IsNull(values[i]) {
      assert [] + tail == tail;
    } else {
      assert cols[i].def == Defs(cols)[i];
      CellRoundTrip(isFloat, cols[i], values[i], tail);
      NotShownAsNull(isFloat, cols[i], values[i]);
      assert EncodeCells(cols, values, i)[|EncodeCell(cols[i], values[i])|..] == tail;
    }
  }

  lemma NotShownAsNull(isFloat: FloatSyntax, c: Column, cell: Cell)
    requires ValidCell(c, cell)
    ensures !Shown(isFloat, c, cell).Null?
  {
  }

  lemma {:induction false} CellsRoundTrip(isFloat: FloatSyntax, cols: seq<Column>, values: seq<Cell>, i: nat)
    requires ValidRow(cols, values) && i <= |cols| && ReadableRow(cols, values)
    ensures BinaryCells(isFloat, NullBitmap(values), Defs(cols), i, EncodeCells(cols, values, i))
         == ShownRow(isFloat, cols, values)[i..]
    decreases |cols| - i
  {
    hide BinaryCells, EncodeCells, NullBitmap, ValidCell, Readable;
    if i < |cols| {
      CellsRoundTrip(isFloat, cols, values, i + 1);
      OneCell(isFloat, cols, values, i);
      var s := ShownRow(isFloat, cols, values);
      assert s[i..] == [s[i]] + s[i + 1..];
    }
  }

  /** The first cell that is not readable comes out as another value. */
  lemma {:induction false} FirstUnreadable(isFloat: FloatSyntax, cols: seq<Column>, values: seq<Cell>, i: nat, k: nat)
    requires ValidRow(cols, values) && i <= k < |cols|
    requires !IsNull(values[k]) && !Readable(cols[k], values[k])
    requires forall j :: i <= j < k ==> IsNull(values[j]) || Readable(cols[j], values[j])
    ensures BinaryCells(isFloat, NullBitmap(values), Defs(cols), i, EncodeCells(cols, values, i))[k - i]
         != ShownRow(isFloat, cols, values)[k]
    decreases k - i
  {
    hide BinaryCells, EncodeCells, NullBitmap, ValidCell, Readable, Shown;
    OneCell(isFloat, cols, values, i);
    if i < k {
      FirstUnreadable(isFloat, cols, values, i + 1, k);
    }
  }

  lemma FirstOf(cols: seq<Column>, values: seq<Cell>) returns (k: nat)
    requires |values| == |cols| && !ReadableRow(cols, values)
    ensures k < |cols| && !IsNull(values[k]) && !Readable(cols[k], values[k])
    ensures forall j :: 0 <= j < k ==> IsNull(values[j]) || Readable(cols[j], values[j])
  {
    hide Readable;
    k := 0;
    while IsNull(values[k]) || Readable(cols[k], values[k])
      invariant k < |cols|
      invariant forall j :: 0 <= j < k ==> IsNull(values[j]) || Readable(cols[j], values[j])
      decreases |cols| - k
    {
      k := k + 1;
    }
  }

  /** Decoding a binary row returns the encoded values, every NULL, every sign, every string, if and only
      if no cell holds a year, a date or time, or an unsigned integer with the top bit set. */
  lemma BinaryRowRoundTrip(isFloat: FloatSyntax, cols: seq<Column>, values: seq<Cell>)
    requires ValidRow(cols, values)
    ensures BinaryRow(isFloat, EncodeBinaryRow(cols, values), Defs(cols)) == ShownRow(isFloat, cols, values)
            <==> ReadableRow(cols, values)
  {
    hide BinaryCells, EncodeCells, NullBitmap, ValidCell, Readable, Shown;
    var p := EncodeBinaryRow(cols, values);
    var m := BitmapLength(|cols|);
    assert p[1..1 + m] == NullBitmap(values);
    assert p[1 + m..] == EncodeCells(cols, values, 0);
    if ReadableRow(cols, values) {
      CellsRoundTrip(isFloat, cols, values, 0);
    } else {
      var k := FirstOf(cols, values);
      FirstUnreadable(isFloat, cols, values, 0, k);
    }
  }

  /** The year 2024 and the TINY 5: the year's low byte is taken for a string length that does not fit,
      and both columns are lost. */
  lemma YearIsLost(isFloat: FloatSyntax, year: bytes, tiny: bytes)
    ensures var cols := [Column(ColumnDef(year, TYPE_YEAR), true, 0), Column(ColumnDef(tiny, TYPE_TINY), false, 0)];
            && ValidRow(cols, [Scalar(Int(2024)), Scalar(Int(5))])
            && EncodeBinaryRow(cols, [Scalar(Int(2024)), Scalar(Int(5))]) == [0, 0, 0xe8, 0x07, 5]
            && BinaryRow(isFloat, EncodeBinaryRow(cols, [Scalar(Int(2024)), Scalar(Int(5))]), Defs(cols)) == [Null, Null]
  {
    hide BinaryCells, BinaryCell, LE, ReadLenEncString;
    var cols := [Column(ColumnDef(year, TYPE_YEAR), true, 0), Column(ColumnDef(tiny, TYPE_TINY), false, 0)];
    var values := [Scalar(Int(2024)), Scalar(Int(5))];
    Pow256Values();
    BitmapOfPresent(values);
    LowBytes();
    assert EncodeCells(cols, values, 2) == [];
    assert EncodeCells(cols, values, 1) == [5] + [];
    assert EncodeCells(cols, values, 0) == [0xe8, 7] + [5];
    var row := EncodeBinaryRow(cols, values);
    assert row[1..2] == [0] && row[2..] == [0xe8, 7, 5];
    YearReadAsString(isFloat, row[1..2], Defs(cols), row[2..]);
  }

  lemma LowBytes()
    ensures LE(2024, 2) == [0xe8, 7] && LE(5, 1) == [5] && LE(200, 1) == [200] && FromLE([200]) == 200 && FromLE([5]) == 5
  {
    assert LE(2024, 2) == [0xe8] + LE(7, 1);
    assert [200][1..] == [] && [5][1..] == [];
  }

  lemma BitmapOfPresent(values: seq<Cell>)
    requires 0 < |values| <= 6 && forall i :: 0 <= i < |values| ==> !IsNull(values[i])
    ensures NullBitmap(values) == [0]
  {
    assert BitmapByte(values, 0) == 0;
  }

  lemma YearReadAsString(isFloat: FloatSyntax, bitmap: bytes, cols: seq<ColumnDef>, data: bytes)
    requires |cols| == 2 && cols[0].fieldType == TYPE_YEAR
    requires bitmap == [0] && |data| == 3 && data[0] == 0xe8
    ensures BinaryCells(isFloat, bitmap, cols, 0, data) == [Null, Null]
  {
    assert ReadLenEncString(data) == Malformed;
    assert BinaryCells(isFloat, bitmap, cols, 0, data) == Nulls(2);
  }

  /** The day 2024-05-01 and the TINY 5: the day is logged as the four bytes of its packed fields. */
  lemma DateIsRaw(isFloat: FloatSyntax, date: bytes, tiny: bytes)
    ensures var cols := [Column(ColumnDef(date, TYPE_DATE), false, 0), Column(ColumnDef(tiny, TYPE_TINY), false, 0)];
            var day := [Moment(Stamp(2024, 5, 1, MIDNIGHT)), Scalar(Int(5))];
            && ValidRow(cols, day)
            && EncodeBinaryRow(cols, day) == [0, 0, 4, 0xe8, 0x07, 5, 1, 5]
            && BinaryRow(isFloat, EncodeBinaryRow(cols, day), Defs(cols)) == [Str([0xe8, 0x07, 5, 1]), Int(5)]
            && ShownRow(isFloat, cols, day)[0] == Str(DateText(2024, 5, 1))
  {
    hide BinaryCells, BinaryCell, LE, ReadLenEncString, DateText, NullBitmap;
    var cols := [Column(ColumnDef(date, TYPE_DATE), false, 0), Column(ColumnDef(tiny, TYPE_TINY), false, 0)];
    var values := [Moment(Stamp(2024, 5, 1, MIDNIGHT)), Scalar(Int(5))];
    Pow256Values();
    assert Pow10(6) > 0;
    BitmapOfPresent(values);
    LowBytes();
    assert ValidRow(cols, values);
    assert Pack(TYPE_DATE, 0, values[0].t) == [0xe8, 7, 5, 1];
    assert EncodeCell(cols[0], values[0]) == [4, 0xe8, 7, 5, 1];
    assert EncodeCells(cols, values, 2) == [];
    assert EncodeCells(cols, values, 1) == [5] + [];
    assert EncodeCells(cols, values, 0) == [4, 0xe8, 7, 5, 1] + [5];
    var row := EncodeBinaryRow(cols, values);
    assert row[1..2] == [0] && row[2..] == [4, 0xe8, 7, 5, 1, 5];
    DayReadAsText(isFloat, row[1..2], Defs(cols), row[2..]);
  }

  lemma DayReadAsText(isFloat: FloatSyntax, bitmap: bytes, cols: seq<ColumnDef>, data: bytes)
    requires |cols| == 2 && cols[0].fieldType == TYPE_DATE && cols[1].fieldType == TYPE_TINY
    requires bitmap == [0] && data == [4, 0xe8, 7, 5, 1, 5]
    ensures BinaryCells(isFloat, bitmap, cols, 0, data) == [Str([0xe8, 7, 5, 1]), Int(5)]
  {
    LenEncStringRoundTrip([0xe8, 7, 5, 1], [5]);
    assert data == LenEncString([0xe8, 7, 5, 1]) + [5];
    assert BinaryCell(isFloat, TYPE_DATE, data) == Some((Str([0xe8, 7, 5, 1]), 5));
    hide ReadLenEncString;
    assert data[5..] == [5] && [5][..1] == [5] && [5][1..] == [];
    LowBytes();
    Pow256Values();
    assert BinaryCell(isFloat, TYPE_TINY, [5]) == Some((Int(5), 1));
    assert BinaryCells(isFloat, bitmap, cols, 2, []) == [];
    assert BinaryCells(isFloat, bitmap, cols, 1, [5]) == [Int(5)];
  }

  /** The unsigned TINY 200 is read as -56. */
  lemma UnsignedIsNegative(isFloat: FloatSyntax, name: bytes)
    ensures var cols := [Column(ColumnDef(name, TYPE_TINY), true, 0)];
            && ValidRow(cols, [Scalar(Int(200))])
            && BinaryRow(isFloat, EncodeBinaryRow(cols, [Scalar(Int(200))]), Defs(cols)) == [Int(-56)]
  {
    hide BinaryCells, BinaryCell, LE, ReadLenEncString;
    var cols := [Column(ColumnDef(name, TYPE_TINY), true, 0)];
    var values := [Scalar(Int(200))];
    Pow256Values();
    BitmapOfPresent(values);
    LowBytes();
    assert EncodeCells(cols, values, 1) == [];
    assert EncodeCells(cols, values, 0) == [200] + [];
    var row := EncodeBinaryRow(cols, values);
    assert row[1..2] == [0] && row[2..] == [200];
    TinyReadAsSigned(isFloat, row[1..2], Defs(cols), row[2..]);
  }

  lemma TinyReadAsSigned(isFloat: FloatSyntax, bitmap: bytes, cols: seq<ColumnDef>, data: bytes)
    requires |cols| == 1 && cols[0].fieldType == TYPE_TINY && bitmap == [0] && data == [200]
    ensures BinaryCells(isFloat, bitmap, cols, 0, data) == [Int(-56)]
  {
    LowBytes();
    Pow256Values();
    assert data[..1] == [200];
    assert BinaryCell(isFloat, TYPE_TINY, data) == Some((Int(-56), 1));
    assert BinaryCells(isFloat, bitmap, cols, 1, data[1..]) == [];
  }

  // ---------- rows as the log shows them ----------

  type Row = map<bytes, Value>

  /** Column names to values; of two columns with one name the later wins. */
  function NamedRow(cols: seq<ColumnDef>, values: seq<Value>): Row
    requires |values| <= |cols|
  {
    if values == [] then map[]
    else
      var n := |values| - 1;
      NamedRow(cols, values[..n])[cols[n].name := values[n]]
  }

  function CoerceAll(isFloat: FloatSyntax, cols: seq<ColumnDef>, raw: seq<Option<bytes>>): (s: seq<Value>)
    requires |raw| <= |cols|
    ensures |s| == |raw|
  {
    seq(|raw|, i requires 0 <= i < |raw| =>
      if raw[i] == None then Null else Coerce(isFloat, raw[i].value, cols[i].fieldType))
  }

  function RowOf(isFloat: FloatSyntax, binary: bool, cols: seq<ColumnDef>, payload: bytes): Row {
    NamedRow(cols, if binary then BinaryRow(isFloat, payload, cols)
                   else CoerceAll(isFloat, cols, TextRow(payload, |cols|)))
  }

  method ParseRow(isFloat: FloatSyntax, binary: bool, cols: seq<ColumnDef>, payload: bytes) returns (row: Row)
    ensures row == RowOf(isFloat, binary, cols, payload)
  {
    var values: seq<Value>;
    if binary {
      values := ParseBinaryRowValues(isFloat, payload, cols);
    } else {
      var raw := ParseTextRowValues(payload, |cols|);
      values := CoerceAll(isFloat, cols, raw);
    }
    row := map[];
    for i := 0 to |values|
      invariant row == NamedRow(cols, values[..i])
    {
      assert values[..i + 1][..i] == values[..i];
      row := row[cols[i].name := values[i]];
    }
    assert values[..|values|] == values;
  }

  /** With distinct column names a row maps each name to its own column's value. */
  lemma {:induction false} NamedRowLookup(cols: seq<ColumnDef>, values: seq<Value>, i: nat)
    requires i < |values| <= |cols|
    requires forall a, b :: 0 <= a < b < |cols| ==> cols[a].name != cols[b].name
    ensures cols[i].name in NamedRow(cols, values) && NamedRow(cols, values)[cols[i].name] == values[i]
  {
    var n := |values| - 1;
    if i < n {
      NamedRowLookup(cols, values[..n], i);
    }
  }

  /** With distinct column names a row determines its values. */
  lemma NamedRowIsInjective(cols: seq<ColumnDef>, a: seq<Value>, b: seq<Value>)
    requires |a| == |b| == |cols|
    requires forall i, j :: 0 <= i < j < |cols| ==> cols[i].name != cols[j].name
    ensures NamedRow(cols, a) == NamedRow(cols, b) ==> a == b
  {
    forall i | 0 <= i < |cols| && NamedRow(cols, a) == NamedRow(cols, b) ensures a[i] == b[i] {
      NamedRowLookup(cols, a, i);
      NamedRowLookup(cols, b, i);
    }
  }

  lemma BinaryRowIsFull(isFloat: FloatSyntax, cols: seq<Column>, values: seq<Cell>)
    requires ValidRow(cols, values)
    ensures |BinaryRow(isFloat, EncodeBinaryRow(cols, values), Defs(cols))| == |cols|
  {
    hide BinaryCells, EncodeCells, NullBitmap, ValidCell;
  }
}
