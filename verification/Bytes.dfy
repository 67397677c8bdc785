/** Bytes, fixed-width unsigned integers and their little-endian form. */
module Bytes {

  type byte = b: int | 0 <= b < 256

  const U32_LIMIT: nat := 0x1_0000_0000
  const U64_LIMIT: nat := 0x1_0000_0000_0000_0000

  type u32 = n: int | 0 <= n < U32_LIMIT
  type u64 = n: int | 0 <= n < U64_LIMIT

  datatype Option<+T> = None | Some(value: T)

  datatype Result<+T, +E> = Success(value: T) | Failure(error: E) {
    predicate IsFailure() {
      Failure?
    }

    function PropagateFailure<U>(): Result<U, E>
      requires Failure?
    {
      Failure(error)
    }

    function Extract(): T
      requires Success?
    {
      value
    }
  }

  function Pow256(n: nat): (p: nat)
    ensures p > 0
  {
    if n == 0 then 1 else 256 * Pow256(n - 1)
  }

  lemma Pow256Values()
    ensures Pow256(1) == 256 && Pow256(2) == 0x1_0000 && Pow256(4) == U32_LIMIT && Pow256(8) == U64_LIMIT
  {
    assert Pow256(2) == 256 * Pow256(1);
    assert Pow256(3) == 256 * Pow256(2);
    assert Pow256(4) == 256 * Pow256(3);
    assert Pow256(5) == 256 * Pow256(4);
    assert Pow256(6) == 256 * Pow256(5);
    assert Pow256(7) == 256 * Pow256(6);
    assert Pow256(8) == 256 * Pow256(7);
  }

  /** The low `n` bytes of `v`, least significant first. */
  function ToLE(n: nat, v: nat): (s: seq<byte>)
    ensures |s| == n
  {
    if n == 0 then [] else [v % 256] + ToLE(n - 1, v / 256)
  }

  function FromLE(s: seq<byte>): (v: nat)
    ensures v < Pow256(|s|)
  {
    if s == [] then 0 else s[0] + 256 * FromLE(s[1..])
  }

  /** Reading back the `n` bytes of a value that fits gives the value. */
  lemma {:induction false} FromToLE(n: nat, v: nat)
    requires v < Pow256(n)
    ensures FromLE(ToLE(n, v)) == v
  {
    if n > 0 {
      FromToLE(n - 1, v / 256);
      assert ToLE(n, v)[1..] == ToLE(n - 1, v / 256);
    }
  }

  /** Every byte string is the little-endian form of the number it denotes. */
  lemma {:induction false} ToFromLE(s: seq<byte>)
    ensures ToLE(|s|, FromLE(s)) == s
  {
    if s != [] {
      ToFromLE(s[1..]);
      assert FromLE(s) / 256 == FromLE(s[1..]) && FromLE(s) % 256 == s[0];
    }
  }

  function U32Bytes(v: u32): (s: seq<byte>)
    ensures |s| == 4 && FromLE(s) == v
  {
    Pow256Values();
    FromToLE(4, v);
    ToLE(4, v)
  }

  function U64Bytes(v: u64): (s: seq<byte>)
    ensures |s| == 8 && FromLE(s) == v
  {
    Pow256Values();
    FromToLE(8, v);
    ToLE(8, v)
  }

  function BytesU32(s: seq<byte>): (v: u32)
    requires |s| == 4
    ensures U32Bytes(v) == s
  {
    Pow256Values();
    ToFromLE(s);
    FromLE(s)
  }

  function BytesU64(s: seq<byte>): (v: u64)
    requires |s| == 8
    ensures U64Bytes(v) == s
  {
    Pow256Values();
    ToFromLE(s);
    FromLE(s)
  }

  lemma BytesOfU32(v: u32)
    ensures BytesU32(U32Bytes(v)) == v
  {
  }

  lemma BytesOfU64(v: u64)
    ensures BytesU64(U64Bytes(v)) == v
  {
  }

  /** A Rust `as u32` cast of a length. */
  function Truncate32(n: nat): (r: u32)
    ensures r == n % U32_LIMIT
  {
    if n < U32_LIMIT then n else n % U32_LIMIT
  }
}
