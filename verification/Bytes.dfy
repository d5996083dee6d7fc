/** Machine integers and the little-endian encodings that every payload is built from. */
module Bytes {

  datatype Option<+T> = None | Some(value: T)

  type byte = n: int | 0 <= n < 256
  type u16 = n: int | 0 <= n < 0x1_0000
  type u32 = n: int | 0 <= n < 0x1_0000_0000
  type u64 = n: int | 0 <= n < 0x1_0000_0000_0000_0000
  type i16 = n: int | -0x8000 <= n < 0x8000
  type i32 = n: int | -0x8000_0000 <= n < 0x8000_0000

  const U16_LIMIT: nat := 0x1_0000
  const U32_LIMIT: nat := 0x1_0000_0000
  const U64_LIMIT: nat := 0x1_0000_0000_0000_0000

  /** `u64::wrapping_add`. */
  function WrappingAdd(a: u64, n: nat): u64 {
    (a + n) % U64_LIMIT
  }

  lemma Assoc<T>(a: seq<T>, b: seq<T>, c: seq<T>)
    ensures a + b + c == a + (b + c)
  {
  }

  lemma AppendEqual<T>(prefix: seq<T>, a: seq<T>, b: seq<T>, c: seq<T>)
    requires a + b == c
    ensures prefix + a + b == prefix + c
  {
    Assoc(prefix, a, b);
  }

  function Min(a: nat, b: nat): nat {
    if a < b then a else b
  }

  function FromBool(b: bool): byte {
    if b then 1 else 0
  }

  function Pow256(w: nat): (p: nat)
    ensures p >= 1
  {
    if w == 0 then 1 else 256 * Pow256(w - 1)
  }

  lemma PowValues()
    ensures Pow256(2) == U16_LIMIT && Pow256(4) == U32_LIMIT && Pow256(8) == U64_LIMIT
  {
    assert Pow256(4) == 256 * (256 * Pow256(2));
    assert Pow256(8) == 256 * (256 * (256 * (256 * Pow256(4))));
  }

  /** The `w` low bytes of `n`, least significant first; wider values are truncated. */
  function LE(n: nat, w: nat): (s: seq<byte>)
    ensures |s| == w
    decreases w
  {
    if w == 0 then [] else [n % 256] + LE(n / 256, w - 1)
  }

  function FromLE(s: seq<byte>): nat {
    if s == [] then 0 else s[0] + 256 * FromLE(s[1..])
  }

  lemma {:induction false} FromLEBound(s: seq<byte>)
    ensures FromLE(s) < Pow256(|s|)
  {
    if s == [] {
    } else {
      FromLEBound(s[1..]);
    }
  }

  lemma {:induction false} LERoundTrip(n: nat, w: nat)
    requires n < Pow256(w)
    ensures FromLE(LE(n, w)) == n
    decreases w
  {
    if w == 0 {
    } else {
      LERoundTrip(n / 256, w - 1);
      assert LE(n, w)[1..] == LE(n / 256, w - 1);
    }
  }

  /** Least significant byte first: a narrower field holds the first bytes of a wider one. */
  lemma {:induction false} NarrowIsPrefix(n: nat, k: nat, w: nat)
    requires k <= w
    ensures LE(n, w)[..k] == LE(n, k)
    decreases k
  {
    if k == 0 {
    } else {
      NarrowIsPrefix(n / 256, k - 1, w - 1);
      assert LE(n, w)[..k] == [n % 256] + LE(n / 256, w - 1)[..k - 1];
    }
  }

  /** Bytes are determined by the number they spell. */
  lemma {:induction false} LEOfBytes(s: seq<byte>)
    ensures LE(FromLE(s), |s|) == s
  {
    if s == [] {
    } else {
      LEOfBytes(s[1..]);
      assert s == [s[0]] + s[1..];
    }
  }

  /** `u16::from_le_bytes(s[o..o + 2])`. */
  function U16At(s: seq<byte>, o: nat): u16
    requires o + 2 <= |s|
  {
    FromLEBound(s[o..o + 2]);
    PowValues();
    FromLE(s[o..o + 2])
  }

  function U32At(s: seq<byte>, o: nat): u32
    requires o + 4 <= |s|
  {
    FromLEBound(s[o..o + 4]);
    PowValues();
    FromLE(s[o..o + 4])
  }

  function U64At(s: seq<byte>, o: nat): u64
    requires o + 8 <= |s|
  {
    FromLEBound(s[o..o + 8]);
    PowValues();
    FromLE(s[o..o + 8])
  }

  /** Two's complement. */
  function I32Bits(x: i32): u32 {
    if x < 0 then x + U32_LIMIT else x
  }

  function I32FromBits(n: u32): i32 {
    if n >= 0x8000_0000 then n - U32_LIMIT else n
  }

  function I16FromBits(n: u16): i16 {
    if n >= 0x8000 then n - U16_LIMIT else n
  }

  /** Reading a field back from anywhere inside a longer buffer. */
  lemma U16RoundTrip(s: seq<byte>, o: nat, x: u16)
    requires o + 2 <= |s| && s[o..o + 2] == LE(x, 2)
    ensures U16At(s, o) == x
  {
    PowValues();
    LERoundTrip(x, 2);
  }

  lemma U32RoundTrip(s: seq<byte>, o: nat, x: u32)
    requires o + 4 <= |s| && s[o..o + 4] == LE(x, 4)
    ensures U32At(s, o) == x
  {
    PowValues();
    LERoundTrip(x, 4);
  }

  lemma U64RoundTrip(s: seq<byte>, o: nat, x: u64)
    requires o + 8 <= |s| && s[o..o + 8] == LE(x, 8)
    ensures U64At(s, o) == x
  {
    PowValues();
    LERoundTrip(x, 8);
  }
}
