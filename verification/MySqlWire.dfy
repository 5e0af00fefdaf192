/** MySQL packets, length-encoded values, column definitions and result rows
    (services/db-proxy/mysql/protocol.go). */
module MySqlWire {
  import opened Bytes
  import opened Options

  const COM_QUIT: byte := 0x01
  const COM_QUERY: byte := 0x03
  const COM_STMT_PREPARE: byte := 0x16
  const COM_STMT_EXECUTE: byte := 0x17

  const OK_HEADER: byte := 0x00
  const ERR_HEADER: byte := 0xff
  const EOF_HEADER: byte := 0xfe
  const NULL_VALUE: byte := 0xfb

  const TYPE_TINY: byte := 0x01
  const TYPE_SHORT: byte := 0x02
  const TYPE_LONG: byte := 0x03
  const TYPE_FLOAT: byte := 0x04
  const TYPE_DOUBLE: byte := 0x05
  const TYPE_LONGLONG: byte := 0x08
  const TYPE_INT24: byte := 0x09
  const TYPE_NEWDECIMAL: byte := 0xf6

  // ---------- packet framing ----------

  datatype Packet = Packet(sequenceId: byte, payload: bytes)

  function RawBytes(p: Packet): bytes {
    LE(|p.payload|, 3) + [p.sequenceId] + p.payload
  }

  /** One packet off the front of a stream, and what follows it. */
  function ReadPacket(stream: bytes): Option<(Packet, bytes)> {
    if |stream| < 4 then None
    else
      var n := FromLE(stream[..3]);
      if |stream| < 4 + n then None
      else Some((Packet(stream[3], stream[4..4 + n]), stream[4 + n..]))
  }

  /** Forwarding is transparent: what is written to the peer is exactly what was consumed. */
  lemma ForwardedBytesAreConsumedBytes(stream: bytes)
    requires ReadPacket(stream).Some?
    ensures var (p, rest) := ReadPacket(stream).value; RawBytes(p) + rest == stream
  {
    var n := FromLE(stream[..3]);
    LEInverse(stream[..3]);
    assert stream == stream[..3] + [stream[3]] + stream[4..4 + n] + stream[4 + n..];
  }

  lemma {:induction false} LEInverse(s: bytes)
    ensures LE(FromLE(s), |s|) == s
  {
    if s != [] {
      LEInverse(s[1..]);
      assert s == [s[0]] + s[1..];
    }
  }

  lemma PacketRoundTrip(p: Packet, rest: bytes)
    requires |p.payload| < 0x100_0000
    ensures ReadPacket(RawBytes(p) + rest) == Some((p, rest))
  {
    Pow256Values();
    LERoundTrip(|p.payload|, 3);
    var s := RawBytes(p) + rest;
    assert s[..3] == LE(|p.payload|, 3);
    assert s[4..4 + |p.payload|] == p.payload;
    assert s[4 + |p.payload|..] == rest;
  }

  // ---------- packet classes ----------

  predicate IsOK(p: bytes) { p != [] && p[0] == OK_HEADER }

  predicate IsERR(p: bytes) { p != [] && p[0] == ERR_HEADER }

  predicate IsEOF(p: bytes) { p != [] && p[0] == EOF_HEADER && |p| < 9 }

  predicate IsResultSet(p: bytes) {
    p != [] && p[0] != OK_HEADER && p[0] != ERR_HEADER && p[0] != EOF_HEADER && p[0] != NULL_VALUE
  }

  function ErrorMessage(p: bytes): bytes {
    if |p| < 4 then []
    else
      var off := if p[3] == '#' as int then 9 else 3;
      if off >= |p| then [] else p[off..]
  }

  function OKAffectedRows(p: bytes): int {
    if |p| < 2 then 0 else ToInt64(ReadLenEncInt(p[1..]).0)
  }

  // ---------- length-encoded values ----------

  /** The value and the number of bytes it takes; a size of 0 means malformed. */
  function ReadLenEncInt(data: bytes): (nat, nat) {
    if data == [] then (0, 0)
    else if data[0] < 0xfb then (data[0], 1)
    else if data[0] == 0xfc then
      if |data| < 3 then (0, 0) else (FromLE(data[1..3]), 3)
    else if data[0] == 0xfd then
      if |data| < 4 then (0, 0) else (FromLE(data[1..4]), 4)
    else if data[0] == 0xfe then
      if |data| < 9 then (0, 0) else (FromLE(data[1..9]), 9)
    else (0, 0)
  }

  function LenEncInt(n: nat): bytes
    requires n < 0x1_0000_0000_0000_0000
  {
    if n < 0xfb then [n]
    else if n < 0x1_0000 then [0xfc] + LE(n, 2)
    else if n < 0x100_0000 then [0xfd] + LE(n, 3)
    else [0xfe] + LE(n, 8)
  }

  lemma LenEncIntRoundTrip(n: nat, rest: bytes)
    requires n < 0x1_0000_0000_0000_0000
    ensures ReadLenEncInt(LenEncInt(n) + rest) == (n, |LenEncInt(n)|)
  {
    Pow256Values();
    var e := LenEncInt(n);
    var w := |e| - 1;
    if w > 0 {
      LERoundTrip(n, w);
      assert (e + rest)[1..1 + w] == LE(n, w);
    }
  }

  datatype LenEncStr = Malformed | NullStr | Text(text: bytes, size: nat)

  function Size(s: LenEncStr): nat {
    match s
    case Malformed => 0
    case NullStr => 1
    case Text(_, n) => n
  }

  function TextOf(s: LenEncStr): bytes {
    if s.Text? then s.text else []
  }

  function ReadLenEncString(data: bytes): (s: LenEncStr)
    ensures Size(s) <= |data|
    ensures s.Text? ==> s.size > 0
  {
    if data == [] then Malformed
    else if data[0] == NULL_VALUE then NullStr
    else
      var (length, n) := ReadLenEncInt(data);
      if n == 0 || length > |data| - n then Malformed
      else Text(data[n..n + length], n + length)
  }

  function LenEncString(s: bytes): bytes
    requires |s| < 0x1_0000_0000_0000_0000
  {
    LenEncInt(|s|) + s
  }

  lemma LenEncStringRoundTrip(s: bytes, rest: bytes)
    requires |s| < 0x1_0000_0000_0000_0000
    ensures ReadLenEncString(LenEncString(s) + rest) == Text(s, |LenEncString(s)|)
  {
    LenEncIntRoundTrip(|s|, s + rest);
    var data := LenEncString(s) + rest;
    assert data == LenEncInt(|s|) + (s + rest);
    var n := |LenEncInt(|s|)|;
    assert data[n..n + |s|] == s;
  }

  // ---------- column definitions ----------

  datatype ColumnDef = ColumnDef(name: bytes, fieldType: byte)

  const NO_COLUMN := ColumnDef([], 0)

  /** Where the `k` length-encoded strings at the front end; None when one is malformed. */
  function SkipStrings(payload: bytes, k: nat): (off: Option<nat>)
    ensures off.Some? ==> off.value <= |payload|
  {
    if k == 0 then Some(0)
    else
      var n := Size(ReadLenEncString(payload));
      if n == 0 then None
      else
        match SkipStrings(payload[n..], k - 1)
        case None => None
        case Some(m) => Some(n + m)
  }

  /** The definition after its catalog, schema, table and original table. */
  function ColumnFrom(payload: bytes): ColumnDef {
    var name := ReadLenEncString(payload);
    if Size(name) == 0 then NO_COLUMN
    else
      var afterName := payload[Size(name)..];
      var afterOrgName := afterName[Size(ReadLenEncString(afterName))..];
      // fixed-length marker, character set (2 bytes) and column length (4 bytes) precede the type
      var off := ReadLenEncInt(afterOrgName).1 + 6;
      ColumnDef(TextOf(name), if off < |afterOrgName| then afterOrgName[off] else 0)
  }

  function ColumnOf(payload: bytes): ColumnDef {
    match SkipStrings(payload, 4)
    case None => NO_COLUMN
    case Some(off) => ColumnFrom(payload[off..])
  }

  method SkipLeadingStrings(payload: bytes, k: nat) returns (off: Option<nat>)
    ensures off == SkipStrings(payload, k)
  {
    hide ReadLenEncString;
    var pos := 0;
    for i := 0 to k
      invariant 0 <= pos <= |payload|
      invariant match SkipStrings(payload[pos..], k - i)
                case None => SkipStrings(payload, k) == None
                case Some(m) => SkipStrings(payload, k) == Some(pos + m)
    {
      var n := Size(ReadLenEncString(payload[pos..]));
      if n == 0 {
        return None;
      }
      DropTwice(payload, pos, n);
      pos := pos + n;
    }
    return Some(pos);
  }

  method ParseColumnDef(payload: bytes) returns (col: ColumnDef)
    ensures col == ColumnOf(payload)
  {
    var off := SkipLeadingStrings(payload, 4);
    if off == None {
      return NO_COLUMN;
    }
    col := ParseColumnTail(payload, off.value);
  }

  method ParseColumnTail(payload: bytes, start: nat) returns (col: ColumnDef)
    requires start <= |payload|
    ensures col == ColumnFrom(payload[start..])
  {
    var off := start;
    var name := ReadLenEncString(payload[off..]);
    if Size(name) == 0 {
      return NO_COLUMN;
    }
    DropTwice(payload, off, Size(name));
    off := off + Size(name);
    var orgName := Size(ReadLenEncString(payload[off..]));
    DropTwice(payload, off, orgName);
    off := off + orgName + ReadLenEncInt(payload[off + orgName..]).1;
    if off + 6 > |payload| {
      return ColumnDef(TextOf(name), 0);
    }
    off := off + 6;
    if off >= |payload| {
      return ColumnDef(TextOf(name), 0);
    }
    return ColumnDef(TextOf(name), payload[off]);
  }

  lemma DropTwice(s: bytes, i: nat, j: nat)
    requires i + j <= |s|
    ensures s[i..][j..] == s[i + j..]
  {
  }

  /** A ColumnDefinition41 packet: six strings, the 0x0c marker, six bytes, the type, the rest. */
  function ColumnPacket(qualifiers: seq<bytes>, name: bytes, orgName: bytes, fixed: bytes,
                        fieldType: byte, rest: bytes): bytes
    requires |qualifiers| == 4 && |fixed| == 6
    requires forall s :: s in qualifiers + [name, orgName] ==> |s| < 0x100_0000
  {
    assert forall i :: 0 <= i < 4 ==> qualifiers[i] in qualifiers + [name, orgName];
    assert name in qualifiers + [name, orgName] && orgName in qualifiers + [name, orgName];
    Strings(qualifiers) + ColumnTail(name, orgName, fixed, fieldType, rest)
  }

  function ColumnTail(name: bytes, orgName: bytes, fixed: bytes, fieldType: byte, rest: bytes): bytes
    requires |name| < 0x100_0000 && |orgName| < 0x100_0000
  {
    LenEncString(name) + (LenEncString(orgName) + ([0x0c] + fixed + [fieldType] + rest))
  }

  function Strings(ss: seq<bytes>): bytes
    requires forall s :: s in ss ==> |s| < 0x100_0000
  {
    if ss == [] then [] else LenEncString(ss[0]) + Strings(ss[1..])
  }

  lemma {:induction false} SkipStringsLands(ss: seq<bytes>, rest: bytes)
    requires forall s :: s in ss ==> |s| < 0x100_0000
    ensures SkipStrings(Strings(ss) + rest, |ss|) == Some(|Strings(ss)|)
  {
    hide ReadLenEncString, LenEncString;
    if ss != [] {
      var tail := Strings(ss[1..]) + rest;
      LenEncStringRoundTrip(ss[0], tail);
      SkipStringsLands(ss[1..], rest);
      assert Strings(ss) + rest == LenEncString(ss[0]) + tail;
      assert (Strings(ss) + rest)[|LenEncString(ss[0])|..] == tail;
    }
  }

  /** The parser recovers the alias and the type of every column definition. */
  lemma ColumnRoundTrip(qualifiers: seq<bytes>, name: bytes, orgName: bytes, fixed: bytes,
                        fieldType: byte, rest: bytes)
    requires |qualifiers| == 4 && |fixed| == 6
    requires forall s :: s in qualifiers + [name, orgName] ==> |s| < 0x100_0000
    ensures ColumnOf(ColumnPacket(qualifiers, name, orgName, fixed, fieldType, rest)) == ColumnDef(name, fieldType)
  {
    hide ReadLenEncString, LenEncString, ReadLenEncInt, Strings, SkipStrings, ColumnFrom;
    assert forall s :: s in qualifiers ==> s in qualifiers + [name, orgName];
    assert name in qualifiers + [name, orgName] && orgName in qualifiers + [name, orgName];
    var tail := ColumnTail(name, orgName, fixed, fieldType, rest);
    var p := ColumnPacket(qualifiers, name, orgName, fixed, fieldType, rest);
    SkipStringsLands(qualifiers, tail);
    assert p[|Strings(qualifiers)|..] == tail;
    ColumnTailRoundTrip(name, orgName, fixed, fieldType, rest);
  }

  lemma ColumnTailRoundTrip(name: bytes, orgName: bytes, fixed: bytes, fieldType: byte, rest: bytes)
    requires |fixed| == 6 && |name| < 0x100_0000 && |orgName| < 0x100_0000
    ensures ColumnFrom(ColumnTail(name, orgName, fixed, fieldType, rest)) == ColumnDef(name, fieldType)
  {
    hide ReadLenEncString, LenEncString;
    var last := [0x0c] + fixed + [fieldType] + rest;
    var orgTail := LenEncString(orgName) + last;
    LenEncStringRoundTrip(name, orgTail);
    LenEncStringRoundTrip(orgName, last);
    assert (LenEncString(name) + orgTail)[|LenEncString(name)|..] == orgTail;
    assert orgTail[|LenEncString(orgName)|..] == last;
  }
}
