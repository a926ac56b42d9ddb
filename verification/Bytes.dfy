/** Bytes, little-endian fields, and the few sequence facts every other module needs. */
module Bytes {

  type byte = x: int | 0 <= x < 0x100
  type u16 = x: int | 0 <= x < 0x1_0000
  type u32 = x: int | 0 <= x < 0x1_0000_0000

  datatype Option<+T> = None | Some(value: T)

  /** The 16-bit little-endian field stored at offset `at`. */
  function Get16(b: seq<byte>, at: nat): u16
    requires at + 2 <= |b|
  {
    b[at] as int + 0x100 * b[at + 1] as int
  }

  function Le16(n: u16): (b: seq<byte>)
    ensures |b| == 2 && Get16(b, 0) == n
  {
    [n % 0x100, n / 0x100]
  }

  /** The 32-bit little-endian field stored at offset `at`. */
  function Get32(b: seq<byte>, at: nat): u32
    requires at + 4 <= |b|
  {
    Get16(b, at) as int + 0x1_0000 * Get16(b, at + 2) as int
  }

  function Le32(n: u32): (b: seq<byte>)
    ensures |b| == 4 && Get32(b, 0) == n
  {
    Le16(n % 0x1_0000) + Le16(n / 0x1_0000)
  }

  /** Python's `x & 0xFF` and `x & 0xFFFFFFFF`: Euclidean, so right for negative x too. */
  function Mask8(x: int): byte { x % 0x100 }

  function Mask32(x: int): u32 { x % 0x1_0000_0000 }

  function Zeros(n: nat): (z: seq<byte>)
    ensures |z| == n && forall i :: 0 <= i < n ==> z[i] == 0
  {
    seq(n, _ => 0)
  }

  /** All pieces of a partition, joined in order. */
  function Flatten<T>(pieces: seq<seq<T>>): seq<T> {
    if pieces == [] then [] else pieces[0] + Flatten(pieces[1..])
  }

  lemma Assoc<T>(a: seq<T>, b: seq<T>, c: seq<T>)
    ensures a + (b + c) == a + b + c
  {
  }

  lemma Halves<T>(a: seq<T>, b: seq<T>)
    ensures (a + b)[..|a|] == a && (a + b)[|a|..] == b
  {
  }

  lemma Uncons<T>(s: seq<T>, i: nat)
    requires i < |s|
    ensures s[i..] == [s[i]] + s[i + 1..] && s[..i + 1] == s[..i] + [s[i]]
    ensures s == s[..i] + s[i..]
  {
  }

  lemma Middle<T>(a: seq<T>, b: seq<T>, c: seq<T>)
    ensures (a + b + c)[|a|..|a| + |b|] == b
  {
  }

  lemma FlattenAppend<T>(a: seq<seq<T>>, b: seq<seq<T>>)
    ensures Flatten(a + b) == Flatten(a) + Flatten(b)
  {
    if a == [] {
      assert a + b == b;
    } else {
      assert (a + b)[0] == a[0] && (a + b)[1..] == a[1..] + b;
      FlattenAppend(a[1..], b);
      Assoc(a[0], Flatten(a[1..]), Flatten(b));
    }
  }

  lemma FlattenSingle<T>(a: seq<T>)
    ensures Flatten([a]) == a
  {
  }

  /** Two byte pairs spelling the same 16-bit value are the same pair. */
  lemma Get16Injective(a: seq<byte>, b: seq<byte>, at: nat)
    requires at + 2 <= |a| && at + 2 <= |b|
    requires Get16(a, at) == Get16(b, at)
    ensures a[at] == b[at] && a[at + 1] == b[at + 1]
  {
  }
}
