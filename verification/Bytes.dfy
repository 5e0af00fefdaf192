/** Byte strings, fixed-width integers in both byte orders, and the predicate
    "this encoding stands at this position", shared by the wire protocols. */
module Bytes {
  type byte = b: int | 0 <= b < 256
  type bytes = seq<byte>

  function Pow256(w: nat): (p: nat)
    ensures p > 0
  {
    if w == 0 then 1 else 256 * Pow256(w - 1)
  }

  lemma Pow256Values()
    ensures Pow256(1) == 0x100 && Pow256(2) == 0x1_0000 && Pow256(3) == 0x100_0000
    ensures Pow256(4) == 0x1_0000_0000 && Pow256(8) == 0x1_0000_0000_0000_0000
  {
    assert Pow256(4) == 256 * Pow256(3);
    assert Pow256(5) == 256 * Pow256(4);
    assert Pow256(6) == 256 * Pow256(5);
    assert Pow256(7) == 256 * Pow256(6);
  }

  /** The low `w` bytes of `n`, least significant first. */
  function LE(n: nat, w: nat): (s: bytes)
    ensures |s| == w
  {
    if w == 0 then [] else [n % 256] + LE(n / 256, w - 1)
  }

  function FromLE(s: bytes): nat {
    if s == [] then 0 else s[0] + 256 * FromLE(s[1..])
  }

  /** The low `w` bytes of `n`, most significant first. */
  function BE(n: nat, w: nat): (s: bytes)
    ensures |s| == w
  {
    if w == 0 then [] else BE(n / 256, w - 1) + [n % 256]
  }

  function FromBE(s: bytes): nat {
    if s == [] then 0 else 256 * FromBE(s[..|s| - 1]) + s[|s| - 1]
  }

  lemma {:induction false} LERoundTrip(n: nat, w: nat)
    requires n < Pow256(w)
    ensures FromLE(LE(n, w)) == n
  {
    if w > 0 {
      LERoundTrip(n / 256, w - 1);
      assert LE(n, w)[1..] == LE(n / 256, w - 1);
    }
  }

  lemma {:induction false} BERoundTrip(n: nat, w: nat)
    requires n < Pow256(w)
    ensures FromBE(BE(n, w)) == n
  {
    if w > 0 {
      BERoundTrip(n / 256, w - 1);
      assert BE(n, w)[..w - 1] == BE(n / 256, w - 1);
    }
  }

  lemma {:induction false} FromLEBound(s: bytes)
    ensures FromLE(s) < Pow256(|s|)
  {
    if s != [] {
      FromLEBound(s[1..]);
    }
  }

  lemma {:induction false} FromBEBound(s: bytes)
    ensures FromBE(s) < Pow256(|s|)
  {
    if s != [] {
      FromBEBound(s[..|s| - 1]);
    }
  }

  /** Two's complement: the signed reading of an unsigned `w`-byte integer. */
  function Signed(n: nat, w: nat): int
    requires w > 0 && n < Pow256(w)
  {
    if n < Pow256(w) / 2 then n else n - Pow256(w)
  }

  /** The unsigned `w`-byte integer that carries `i`. */
  function Unsigned(i: int, w: nat): (n: nat)
    requires w > 0 && -(Pow256(w) / 2) <= i < Pow256(w) / 2
    ensures n < Pow256(w)
  {
    if i >= 0 then i else i + Pow256(w)
  }

  /** Go's conversion of any integer to int64: the residue modulo 2^64, read as signed. */
  function ToInt64(n: int): (i: int)
    ensures -0x8000_0000_0000_0000 <= i < 0x8000_0000_0000_0000
  {
    var m := n % 0x1_0000_0000_0000_0000;
    if m < 0x8000_0000_0000_0000 then m else m - 0x1_0000_0000_0000_0000
  }

  /** Go's conversion of any integer to int32. */
  function ToInt32(n: int): (i: int)
    ensures -0x8000_0000 <= i < 0x8000_0000
  {
    var m := n % 0x1_0000_0000;
    if m < 0x8000_0000 then m else m - 0x1_0000_0000
  }

  /** `enc` stands in `data` at `pos`. */
  predicate Has(data: bytes, pos: nat, enc: bytes) {
    pos + |enc| <= |data| && data[pos..pos + |enc|] == enc
  }

  lemma HasConcat(data: bytes, pos: nat, a: bytes, b: bytes)
    ensures Has(data, pos, a + b) <==> Has(data, pos, a) && Has(data, pos + |a|, b)
  {
    if Has(data, pos, a + b) {
      assert data[pos..pos + |a|] == (a + b)[..|a|];
      assert data[pos + |a|..pos + |a| + |b|] == (a + b)[|a|..];
    }
    if Has(data, pos, a) && Has(data, pos + |a|, b) {
      assert data[pos..pos + |a| + |b|] == data[pos..pos + |a|] + data[pos + |a|..pos + |a| + |b|];
    }
  }

  lemma HasFits(data: bytes, pos: nat, enc: bytes)
    requires Has(data, pos, enc)
    ensures pos + |enc| <= |data|
  {
  }

  lemma HasWhole(a: bytes, enc: bytes, b: bytes)
    ensures Has(a + enc + b, |a|, enc)
  {
  }

  function Flatten<T>(ss: seq<seq<T>>): seq<T> {
    if ss == [] then [] else ss[0] + Flatten(ss[1..])
  }

  lemma {:induction false} FlattenAppend<T>(a: seq<seq<T>>, b: seq<seq<T>>)
    ensures Flatten(a + b) == Flatten(a) + Flatten(b)
  {
    if a == [] {
      assert a + b == b;
    } else {
      FlattenAppend(a[1..], b);
      assert (a + b)[1..] == a[1..] + b;
      assert Flatten(a + b) == a[0] + Flatten(a[1..] + b);
    }
  }
}
