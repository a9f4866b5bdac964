/** Shared result types. */
module Prelude {
  datatype Option<+T> = None | Some(value: T)

  datatype Result<+T, +E> = Ok(value: T) | Err(error: E)

  type byte = b: int | 0 <= b < 256

  type u64 = x: int | 0 <= x < 0x1_0000_0000_0000_0000

  /** UTF-8 decoding, lossy on invalid input; it belongs to the standard library and is a parameter here. */
  type Utf8 = seq<byte> -> string

  function Min(a: nat, b: nat): (m: nat)
    ensures m <= a && m <= b
  {
    if a <= b then a else b
  }

  lemma SomeKey<K, V>(m: map<K, V>) returns (k: K)
    requires m != map[]
    ensures k in m
  {
    assert |m.Keys| == |m|;
    k :| k in m.Keys;
  }
}
