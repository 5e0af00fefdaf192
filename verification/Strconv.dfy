/** Go's strconv.ParseInt(s, 10, 64), which strconv.Atoi agrees with on 64-bit
    platforms, and the decimal writer it inverts. */
module Strconv {
  import opened Bytes
  import opened Options

  const MIN_INT64 := -0x8000_0000_0000_0000
  const MAX_INT64 := 0x7fff_ffff_ffff_ffff

  predicate IsDigits(s: bytes) {
    s != [] && forall i :: 0 <= i < |s| ==> '0' as int <= s[i] <= '9' as int
  }

  function DecimalValue(s: bytes): nat
    requires forall i :: 0 <= i < |s| ==> '0' as int <= s[i] <= '9' as int
  {
    if s == [] then 0 else 10 * DecimalValue(s[..|s| - 1]) + (s[|s| - 1] - '0' as int)
  }

  function ParseInt(s: bytes): Option<int> {
    if s == [] then None
    else
      var negative := s[0] == '-' as int;
      var body := if negative || s[0] == '+' as int then s[1..] else s;
      if !IsDigits(body) then None
      else
        var n: int := DecimalValue(body);
        var v := if negative then 0 - n else n;
        if MIN_INT64 <= v <= MAX_INT64 then Some(v) else None
  }

  function FormatNat(n: nat): (s: bytes)
    ensures IsDigits(s)
  {
    if n < 10 then ['0' as int + n] else FormatNat(n / 10) + ['0' as int + n % 10]
  }

  function FormatInt(i: int): bytes {
    if i < 0 then ['-' as int] + FormatNat(-i) else FormatNat(i)
  }

  lemma {:induction false} FormatNatValue(n: nat)
    ensures DecimalValue(FormatNat(n)) == n
  {
    if n < 10 {
      assert FormatNat(n)[..0] == [];
    } else {
      FormatNatValue(n / 10);
      assert FormatNat(n)[..|FormatNat(n)| - 1] == FormatNat(n / 10);
    }
  }

  /** Every 64-bit integer survives being written in decimal and parsed. */
  lemma ParseIntRoundTrip(i: int)
    requires MIN_INT64 <= i <= MAX_INT64
    ensures ParseInt(FormatInt(i)) == Some(i)
  {
    FormatNatValue(if i < 0 then -i else i);
    if i < 0 {
      assert FormatInt(i)[1..] == FormatNat(-i);
    }
  }
}
