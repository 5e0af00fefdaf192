/** Dates and times as a MySQL server holds them: the fields the binary protocol packs them into and the
    text the text protocol spells them with. The source has no case for them
    (services/db-proxy/mysql/protocol.go, lines 288 to 298). */
module MySqlTemporal {
  import opened Bytes

  const TYPE_TIMESTAMP: byte := 0x07
  const TYPE_DATE: byte := 0x0a
  const TYPE_TIME: byte := 0x0b
  const TYPE_DATETIME: byte := 0x0c

  predicate IsTemporal(ft: byte) {
    ft in {TYPE_TIMESTAMP, TYPE_DATE, TYPE_TIME, TYPE_DATETIME}
  }

  datatype Clock = Clock(hour: nat, minute: nat, second: nat, micros: nat)

  const MIDNIGHT := Clock(0, 0, 0, 0)

  /** A day with a time of day, or a signed length of time. */
  datatype Temporal =
    | Stamp(year: nat, month: nat, day: nat, clock: Clock)
    | Span(negative: bool, days: nat, clock: Clock)

  function Pow10(n: nat): (p: nat)
    ensures p > 0
  {
    if n == 0 then 1 else 10 * Pow10(n - 1)
  }

  /** A time of day with no more than `decimals` digits after the second. */
  predicate ValidClock(k: Clock, decimals: nat) {
    && k.hour < 24 && k.minute < 60 && k.second < 60 && k.micros < 1000000
    && decimals <= 6 && k.micros % Pow10(6 - decimals) == 0
  }

  /** What a column of the type can hold; the zero date is a value of its own. */
  predicate ValidTemporal(ft: byte, decimals: nat, t: Temporal) {
    && ValidClock(t.clock, decimals)
    && match t
       case Stamp(year, month, day, clock) =>
         ft != TYPE_TIME && year < 10000 && month <= 12 && day <= 31 &&
         (ft == TYPE_DATE ==> clock == MIDNIGHT && decimals == 0)
       case Span(negative, days, clock) =>
         ft == TYPE_TIME && days <= 34 && (negative ==> days > 0 || clock != MIDNIGHT)
  }

  // ---------- the binary protocol ----------

  function PackClock(k: Clock): bytes
    requires k.hour < 24 && k.minute < 60 && k.second < 60
  {
    [k.hour, k.minute, k.second] + if k.micros == 0 then [] else LE(k.micros, 4)
  }

  /** The fields of a value, little-endian; those at the end that are all zero are not sent. */
  function Pack(ft: byte, decimals: nat, t: Temporal): (p: bytes)
    requires ValidTemporal(ft, decimals, t)
    ensures |p| <= 12
  {
    match t
    case Stamp(year, month, day, clock) =>
      if clock != MIDNIGHT then LE(year, 2) + [month, day] + PackClock(clock)
      else if year > 0 || month > 0 || day > 0 then LE(year, 2) + [month, day]
      else []
    case Span(negative, days, clock) =>
      if days > 0 || clock != MIDNIGHT then [if negative then 1 else 0] + LE(days, 4) + PackClock(clock)
      else []
  }

  function Field(p: bytes, at: nat, w: nat): nat {
    if at + w <= |p| then FromLE(p[at..at + w]) else 0
  }

  function ClockAt(p: bytes, at: nat): Clock {
    Clock(Field(p, at, 1), Field(p, at + 1, 1), Field(p, at + 2, 1), Field(p, at + 3, 4))
  }

  /** What a client makes of packed fields. */
  function Unpack(ft: byte, p: bytes): Temporal {
    if ft == TYPE_TIME then Span(Field(p, 0, 1) == 1, Field(p, 1, 4), ClockAt(p, 5))
    else Stamp(Field(p, 0, 2), Field(p, 2, 1), Field(p, 3, 1), ClockAt(p, 4))
  }

  lemma ClockRoundTrip(front: bytes, k: Clock)
    requires k.hour < 24 && k.minute < 60 && k.second < 60 && k.micros < 1000000
    ensures ClockAt(front + PackClock(k), |front|) == k
  {
    var p, n := front + PackClock(k), |front|;
    var micros := if k.micros == 0 then [] else LE(k.micros, 4);
    Pow256Values();
    LERoundTrip(k.micros, 4);
    assert p == front + [k.hour, k.minute, k.second] + micros;
    assert p[n..n + 1] == [k.hour] && p[n + 1..n + 2] == [k.minute] && p[n + 2..n + 3] == [k.second];
    OneByte(k.hour);
    OneByte(k.minute);
    OneByte(k.second);
    if k.micros > 0 {
      assert p[n + 3..n + 3 + 4] == micros;
    }
  }

  lemma OneByte(b: byte)
    ensures FromLE([b]) == b
  {
    assert [b][1..] == [];
  }

  /** The packed fields tell the value: a client that unpacks them has it back. */
  lemma PackingRoundTrip(ft: byte, decimals: nat, t: Temporal)
    requires ValidTemporal(ft, decimals, t)
    ensures Unpack(ft, Pack(ft, decimals, t)) == t
  {
    hide PackClock;
    var p := Pack(ft, decimals, t);
    Pow256Values();
    if p != [] {
      match t
      case Stamp(year, month, day, clock) =>
        var front := LE(year, 2) + [month, day];
        LERoundTrip(year, 2);
        OneByte(month);
        OneByte(day);
        assert p[0..2] == LE(year, 2) && p[2..3] == [month] && p[3..4] == [day];
        if clock != MIDNIGHT {
          ClockRoundTrip(front, clock);
        }
      case Span(negative, days, clock) =>
        var front: bytes := [if negative then 1 else 0] + LE(days, 4);
        LERoundTrip(days, 4);
        OneByte(if negative then 1 else 0);
        assert p[0..1] == [if negative then 1 else 0] && p[1..5] == LE(days, 4);
        ClockRoundTrip(front, clock);
    }
  }

  // ---------- the text protocol ----------

  /** The last `w` decimal digits of `n`. */
  function Digits(n: nat, w: nat): (s: bytes)
    ensures |s| == w
    ensures forall i :: 0 <= i < w ==> '0' as int <= s[i] <= '9' as int
  {
    if w == 0 then [] else Digits(n / 10, w - 1) + ['0' as int + n % 10]
  }

  /** YYYY-MM-DD */
  function DateText(year: nat, month: nat, day: nat): (s: bytes)
    ensures |s| == 10
  {
    Digits(year, 4) + ['-' as int] + Digits(month, 2) + ['-' as int] + Digits(day, 2)
  }

  /** hh:mm:ss, the hours of a length of time with a third digit where needed, and the decimals. */
  function ClockText(hours: nat, k: Clock, decimals: nat): (s: bytes)
    requires decimals <= 6
    ensures |s| >= 8 && '0' as int <= s[0] <= '9' as int
  {
    Digits(hours, if hours < 100 then 2 else 3) + [':' as int] + Digits(k.minute, 2) + [':' as int] + Digits(k.second, 2) +
    if decimals == 0 then [] else ['.' as int] + Digits(k.micros / Pow10(6 - decimals), decimals)
  }

  function TemporalText(ft: byte, decimals: nat, t: Temporal): bytes
    requires ValidTemporal(ft, decimals, t)
  {
    match t
    case Stamp(year, month, day, clock) =>
      DateText(year, month, day) +
      if ft == TYPE_DATE then [] else [' ' as int] + ClockText(clock.hour, clock, decimals)
    case Span(negative, days, clock) =>
      (if negative then ['-' as int] else []) + ClockText(24 * days + clock.hour, clock, decimals)
  }

  /** No value's packed fields are its text. */
  lemma PackedIsNotText(ft: byte, decimals: nat, t: Temporal)
    requires ValidTemporal(ft, decimals, t)
    ensures Pack(ft, decimals, t) != TemporalText(ft, decimals, t)
  {
    hide Digits, LE, DateText, ClockText, Pow10;
    var p, s := Pack(ft, decimals, t), TemporalText(ft, decimals, t);
    if t.Stamp? {
      assert |s| == 10 || |s| >= 19;
    } else if p != [] {
      assert p[0] <= 1 && s[0] > 1;
    }
  }
}
